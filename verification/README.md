# Verification model of the CIAA Modbus stack and circular buffer

The CIAA firmware carries MODBUS messages between masters and slaves. This project models, in Dafny,

- the **ASCII link layer** (`AsciiFrame`, `AsciiLink`, `AsciiStream`, over `HexCodec` and `Lrc`): one
  512-byte buffer that receives a frame in pieces, finds the last `:`, decodes in place, and encodes a
  message in place for transmission;
- the **slave** (`Slave`, `SlaveProperties`), which validates a request, runs the application's
  callbacks, and turns the request into the reply inside the caller's buffer, with two applications: a
  bank of registers (`RegisterFile`) and the board of the blinking example (`BlinkingSlave`);
- the **master** (`Master`, `MasterProperties`), one pending command at a time with retries;
- the **gateway** (`Gateway`, `GatewayTable`, `GatewayCode`, `GatewayHold`), a state machine for each
  client and a busy flag for each server;
- **devices** made of all of these (`Node`, `NodeProperties`, `MasterTermination`), an exchange over the
  line (`EndToEnd`), a whole command with its retries and what its link holds from try to try (`Oversized`,
  `Listening`, `Retries`), two devices joined by a line (`TwoNodes`, `FreshDevices`), and the retries on the
  master's device (`RetriesOnDevices`);
- the **lock-free circular buffer** (`Mask`, `CircBuf`, `CircBufInterleaving`).

What the source updates in place is a class here (`AsciiLink.AsciiObj`, `Slave.SlaveObj`,
`Master.MasterObj`, `GatewayCode.GatewayObjs`, `CircBuf.CircBufType`) whose methods have the source's
loops and are proved to compute a function of the state before; what the source promises is then proved
about those functions, over all inputs, runs and interleavings.

`dafny verify dfyconfig.toml` checks the project.

## What is proved

- Every frame is a colon, upper-case digits of id, PDU and check byte, and two end characters, as numbers.
- A frame is reported exactly if it stands first in the buffer, character for character, and its length
  fits an `int8_t`; so a PDU makes the round trip exactly if it has 1 to 60 bytes, decoding is injective,
  and replacing any one character of a frame, or any one byte of what it spells, makes it unreadable.
- A frame split in any way into chunks is reported with the last chunk and not before, whatever the
  buffer held; a stream of frames is delivered in order, each once.
- Every slave reply has 2 to 252 bytes and is never dropped by the ASCII layer; a callback runs exactly
  for supported, well-formed requests and gets exactly what the request says; function 0x17 reads what it
  has just written.
- A master ends its pending command exactly on a message that answers it, byte for byte, or that is an
  exception with code 0, and never on one from another slave; unanswered, a command ends with code 0x10.
- One run of the main task takes a request through routing and sending into the wait for its server, or to
  the end if the response is there; a server of the message's own id comes before one of id 0.
- Over every run of the gateway's operations a server is busy exactly if one client waits for it, and
  never do two wait for the same one; a client with timeout t gives its server back within t + 1 calls.
- A call for one client never touches another client's message, and the reply a client gets is computed
  from its own request, whatever the other clients do meanwhile.
- A command of a master that is the only client of its gateway ends, with exactly one signal, after at
  most `retryComm` requests, whatever the servers do.
- A single write completes exactly if the application raises no exception; one exchange of a read, write or
  read-write leaves slave and caller as it should exactly up to 29, 27, and 29 read and 25 written registers.
- A whole command of up to 125 registers read, on a bank, over every line that brings each reply within its
  try: with more than 29 to read the slave carries it out on every try and the caller gets nothing. The
  command then ends with the code for a missing response, unless a try hears its own request: for 66 to 93
  registers, and at least 68 more than those written, a long reply in the link when a request is written is
  enough, and every command of two tries or more has one. Then it ends with the code for a wrong response.
- A command goes through two gateways and two links, request and response in pieces of any size, with the
  effect of that exchange, whatever the master's link holds that is not its own request complete; between two
  devices just set up, each hears exactly what the other wrote. Over any line whatever the calls of the
  master's gateway are the tries of `Retries`, one frame for each.
- For every interleaving of the steps of one writer and one reader of the circular buffer, the bytes
  delivered followed by the bytes resident are the bytes accepted, and no cell is copied by both.

Where the code and its own documentation differ, the model follows the code:

- the length of the received characters is an `int8_t`, so no frame of more than 127 characters is ever
  complete (`ciaaModbus_ascii.c:159`), though buffers and standard allow more;
- the master commands are documented to return 5 and 6 for a missing or wrong response
  (`ciaaModbus_master.c:266-267`), the code uses 0x10 and 0x11 (`ciaaModbus.h:81-82`);
- the gateway's receive function is documented to leave a size below 5 if there is no message
  (`ciaaModbus_gateway.c:106-107`), the code asks for at least 1 byte of a request and 2 of a response;
- a master without a command leaves that size as it is, so its client sends the message it still holds once
  more; a completed single write goes out twice (`OldMessageSentAgain`, `SingleWriteSentAgain`);
- one completion signal for each command is what the master is for, but a message can also complete a
  command that is not there: one command of a master just opened can get two (`SpuriousIff`,
  `SpuriousSignalExists`);
- a command whose response does not arrive is meant to end with the code for a missing response. A response
  too long to be reported stays in the link's buffer, though, as the link waits 1000 milliseconds and the
  master 300 (`ciaaModbus_ascii.c:89`, `ciaaModbus_master.c:381`), and the next request is written over it.
  For 66 to 93 registers the master can then hear its own request (`RetryHeardIff`), and the command ends
  with the code for a wrong response although its slave answered every try (`LongReadEnds`,
  `WrongCodeExists`, `WrongCodeOnDevice`: 70 registers read and one written);
- the blinking example answers a failed write with an exception and yet may have changed the outputs
  (`FailedWriteChangesOutputsIff`).

`size_t` is taken as 32 bits, as on the boards' processors; bytes, words and signed 16-bit values are
ranges of `int` with their conversions written out (`Bytes`).

## Model

| member | source | states |
|---|---|---|
| `Bytes.ReadWriteInt` | Firmware/modules/modbus/inc/ciaaModbus.h:628-645 | readInt gives back what writeInt stored, truncated to 16 bits, for every integer |
| `Bytes.WriteReadInt` | Firmware/modules/modbus/inc/ciaaModbus.h:628-645 | writeInt restores the two bytes that readInt read |
| `Bytes.BigEndian` | Firmware/modules/modbus/inc/ciaaModbus.h:628-645 | the two bytes of a value are its high byte and then its low byte, modulo 2^16 |
| `Bytes.WordsOfUnwords` | Firmware/modules/modbus/inc/ciaaModbus.h:628-645 | a whole block of 16-bit values survives the wire format, value for value |
| `Bytes.UnwordsOfWords` | Firmware/modules/modbus/inc/ciaaModbus.h:628-645 | an even block of bytes read as words and written back is the same block |
| `Bytes.SignedOfWord` | Firmware/modules/modbus/src/ciaaModbus_master.c:172-176 | a word stored as a signed value is the one that truncates to it |
| `Lrc.CalcLRC` | Firmware/modules/modbus/src/ciaaModbus_ascii.c:109-124 | the wrapping loop computes the two's complement of the unbounded sum |
| `Lrc.CheckLRC` | Firmware/modules/modbus/src/ciaaModbus_ascii.c:134-148 | accepts exactly the blocks whose last byte is the check byte of the rest |
| `Lrc.SumOfParts` | Firmware/modules/modbus/src/ciaaModbus_ascii.c:109-124 | the sum is 0 for nothing, the byte for one byte, and adds up over the parts of a block |
| `Lrc.ChecksIffSumZero` | Firmware/modules/modbus/src/ciaaModbus_ascii.c:109-148 | a block checks if and only if all its bytes, check byte included, sum to 0 mod 256 |
| `Lrc.AppendedLrcChecks` | Firmware/modules/modbus/src/ciaaModbus_ascii.c:457-459 | the check byte appended on transmission always verifies |
| `Lrc.OneByteChangeDetected` | Firmware/modules/modbus/src/ciaaModbus_ascii.c:134-148 | changing exactly one byte of a block that checks, anywhere, is detected |
| `HexCodec.UnhexHex` | Firmware/modules/modbus/src/ciaaModbus_ascii.c:189-247 | decoding inverts encoding for every block |
| `HexCodec.HexUnhex` | Firmware/modules/modbus/src/ciaaModbus_ascii.c:189-247 | encoding inverts decoding: only upper-case, even-length spellings decode, one for each block |
| `HexCodec.Alphabet` | Firmware/modules/modbus/src/ciaaModbus_ascii.c:189-247 | the sixteen digits are 0 to 9 and A to F, and no other character is one |
| `HexCodec.Ascii2Bin` | Firmware/modules/modbus/src/ciaaModbus_ascii.c:189-247 | the forward compaction inside the buffer equals the out-of-place decoder for every length, overwrites no unread character, and is -1 exactly if a character is not hexadecimal |
| `HexCodec.Bin2Ascii` | Firmware/modules/modbus/src/ciaaModbus_ascii.c:464-472 | the backward expansion inside the buffer equals the out-of-place encoder for every length and leaves the other cells alone |
| `AsciiFrame.FrameShape` | Firmware/modules/modbus/src/ciaaModbus_ascii.c:474-482 | length, start, end and hexadecimal inside of every frame |
| `AsciiFrame.FrameSpelled` | Firmware/modules/modbus/src/ciaaModbus_ascii.c:432-489 | every frame, character for character: a colon, two upper-case digits for each byte, the high one first, of id, PDU and the byte that makes their sum a multiple of 256, then 0x0D and 0x0A |
| `AsciiFrame.FrameOfARead` | Firmware/modules/modbus/src/ciaaModbus_ascii.c:432-489 | the seventeen characters of one request, as numbers |
| `AsciiFrame.CompleteIff` | Firmware/modules/modbus/src/ciaaModbus_ascii.c:159-186 | what is taken for a complete frame: a colon in front and the first 0x0D 0x0A from position 7 on, within the number of characters as an int8_t |
| `AsciiFrame.ReceivedWasSent` | Firmware/modules/modbus/src/ciaaModbus_ascii.c:369-430 | re-encoding a reported message gives the consumed characters, character for character |
| `AsciiFrame.SentIsReceived` | Firmware/modules/modbus/src/ciaaModbus_ascii.c:369-430 | a frame at the start of the buffer is reported as its message, whatever follows it |
| `AsciiFrame.ReceivesIff` | Firmware/modules/modbus/src/ciaaModbus_ascii.c:159-186 | a message is reported if and only if its frame stands first, its PDU is not empty, and its length is at most the number of characters read as an int8_t |
| `AsciiFrame.FramesArePrefixFree` | Firmware/modules/modbus/src/ciaaModbus_ascii.c:432-489 | no frame continues another frame |
| `AsciiFrame.FrameInjective` | Firmware/modules/modbus/src/ciaaModbus_ascii.c:432-489 | different messages have different frames |
| `AsciiFrame.RoundTripIff` | Firmware/modules/modbus/src/ciaaModbus_ascii.c:369-489 | a frame is reported as its own message exactly for PDUs of 1 to 60 bytes, and otherwise as nothing |
| `AsciiFrame.OneCharacterChangeRejected` | Firmware/modules/modbus/src/ciaaModbus_ascii.c:393-424 | replacing any single character of any frame by any other one makes it unreadable |
| `AsciiFrame.OneByteChangeRejected` | Firmware/modules/modbus/src/ciaaModbus_ascii.c:393-424 | replacing any single byte of the decoded block, id and check byte included, by any other one makes the frame unreadable, whether one of its characters changes or both |
| `AsciiLink.AsciiObj.constructor` | Firmware/modules/modbus/src/ciaaModbus_ascii.c:259-291 | an object that is opened holds no characters |
| `AsciiLink.AsciiObj.CheckCompleteMsg` | Firmware/modules/modbus/src/ciaaModbus_ascii.c:159-186 | the loop finds the end of the first complete frame among the characters held, or -1 |
| `AsciiLink.AsciiObj.SearchStart` | Firmware/modules/modbus/src/ciaaModbus_ascii.c:343-353 | the backward loop finds the last start character |
| `AsciiLink.AsciiObj.ShiftDown` | Firmware/modules/modbus/src/ciaaModbus_ascii.c:356-365 | the overlapping move keeps every character from the start on |
| `AsciiLink.AsciiObj.Task` | Firmware/modules/modbus/src/ciaaModbus_ascii.c:293-367 | one tick: timeout, discarding of a full buffer, reading at most the room there is, resynchronisation on the last start character |
| `AsciiLink.AsciiObj.RecvMsg` | Firmware/modules/modbus/src/ciaaModbus_ascii.c:369-430 | reports exactly the received message, with its check byte copied behind the PDU, or size 0 with id and pdu untouched; a complete frame leaves the buffer either way |
| `AsciiLink.AsciiObj.SendMsg` | Firmware/modules/modbus/src/ciaaModbus_ascii.c:432-489 | writes exactly the frame if it fits 512 characters and nothing otherwise, and what this leaves of the characters held |
| `AsciiLink.AsciiObj.Convert` | Firmware/modules/modbus/src/ciaaModbus_ascii.c:464-482 | expansion, start and end characters make the frame of the payload |
| `AsciiStream.SendSynchronisedIff` | Firmware/modules/modbus/src/ciaaModbus_ascii.c:432-489 | transmission keeps the receive buffer synchronised if and only if the frame fits or the raw bytes left have no misplaced start character |
| `AsciiStream.OversizedSendDesynchronises` | Firmware/modules/modbus/src/ciaaModbus_ascii.c:457-463 | a PDU of 253 bytes can leave a start character in the middle |
| `AsciiStream.TickMeaning` | Firmware/modules/modbus/src/ciaaModbus_ascii.c:293-367 | what a tick drops and reads: all that is held if no time is left or all 512 cells are used, then as many characters as there is room for, and what comes before the last colon is dropped |
| `AsciiStream.RunSynchronised` | Firmware/modules/modbus/src/ciaaModbus_ascii.c:293-489 | over every mix of ticks, receptions and fitting transmissions the buffer stays within 512 characters with a start character at most at the front |
| `AsciiStream.EchoIff` | Firmware/modules/modbus/src/ciaaModbus_ascii.c:432-489 | a transmitted message is taken for a received one exactly if enough characters were held |
| `AsciiStream.HeldWhileArriving` | Firmware/modules/modbus/src/ciaaModbus_ascii.c:293-367 | while a frame arrives exactly its characters so far are held and nothing is reported |
| `AsciiStream.Reassembly` | Firmware/modules/modbus/src/ciaaModbus_ascii.c:293-430 | for every split of a frame into chunks and every earlier content, the last reception and no other reports the message, and the buffer is empty after it |
| `AsciiStream.StreamDelivered` | Firmware/modules/modbus/src/ciaaModbus_ascii.c:293-430 | a stream of frames in chunks delivers the messages sent, in order and each once |
| `Slave.SlaveObj.constructor` | Firmware/modules/modbus/src/ciaaModbus_slave.c:111-163 | an opened slave has its callbacks and id and no request |
| `Slave.SlaveObj.SendMsg` | Firmware/modules/modbus/src/ciaaModbus_slave.c:576-584 | the slave keeps a reference to the caller's buffer and the size |
| `Slave.SlaveObj.RecvMsg` | Firmware/modules/modbus/src/ciaaModbus_slave.c:558-574 | id and reply are copied, also when source and destination are the same buffer |
| `Slave.SlaveObj.Task` | Firmware/modules/modbus/src/ciaaModbus_slave.c:165-555 | the reply replaces the request in the buffer and, with the application's new state and the calls made, depends on the request bytes alone although bytes behind them are read |
| `Slave.SlaveObj.Dispatch` | Firmware/modules/modbus/src/ciaaModbus_slave.c:181-541 | each case of the switch leaves the reply in place or an exception code to report |
| `Slave.SlaveObj.ReadItems` | Firmware/modules/modbus/src/ciaaModbus_slave.c:183-335 | the four read functions: validation, the callback's data in the buffer, count and length |
| `Slave.SlaveObj.WriteSingle` | Firmware/modules/modbus/src/ciaaModbus_slave.c:337-400 | the two single writes: validation, and the request as the reply |
| `Slave.SlaveObj.WriteMultiple` | Firmware/modules/modbus/src/ciaaModbus_slave.c:402-478 | the two multiple writes, with the 16-bit byte count |
| `Slave.SlaveObj.ReadWrite` | Firmware/modules/modbus/src/ciaaModbus_slave.c:480-533 | write first, then read over the request bytes; no read after a failed write |
| `SlaveProperties.CallbackRunsIff` | Firmware/modules/modbus/src/ciaaModbus_slave.c:179-555 | a callback runs if and only if the function is supported and quantity and length are exact; every other request leaves the application alone and gets exception 1 or 3 |
| `SlaveProperties.CallsSpellRequest` | Firmware/modules/modbus/src/ciaaModbus_slave.c:181-541 | the arguments the callbacks get spell the request back, byte for byte |
| `SlaveProperties.CallbackDecides` | Firmware/modules/modbus/src/ciaaModbus_slave.c:181-541 | for each of the nine function codes, the callback it names decides the new state and the reply: the bytes of a read behind their number, the first five bytes of a write, or the exception under the code plus 0x80 |
| `Modbus.ErrorCodeSetsTopBit` | Firmware/modules/modbus/src/ciaaModbus_slave.c:543-552 | an exception has the top bit of the function code set and the other seven as they were |
| `Modbus.BitBytesHold` | Firmware/modules/modbus/src/ciaaModbus_slave.c:402-478 | the byte count of coils is the least that holds them |
| `SlaveProperties.ReadAfterWriteIff` | Firmware/modules/modbus/src/ciaaModbus_slave.c:516-531 | function 0x17 reads if and only if its write raised no exception; after a failed write the state is the one the write left and the reply is its exception |
| `SlaveProperties.ReplyShape` | Firmware/modules/modbus/src/ciaaModbus_slave.c:165-555 | every reply has 2 to 252 bytes and the request's code, or is a 2-byte exception with a non-zero code, and the ASCII layer writes it |
| `RegisterFile.BankMeetsContract` | Firmware/modules/modbus/inc/ciaaModbus.h:104-182 | a bank of registers keeps the callback contract |
| `RegisterFile.ReadWriteSeesOwnWrite` | Firmware/modules/modbus/src/ciaaModbus_slave.c:480-533 | function 0x17 answers with the registers after its own write, for overlapping and disjoint ranges, and changes no other register |
| `BlinkingSlave.Cmd0x03ReadHoldingReg` | Firmware/examples/blinking_modbus_slave/src/blinking_modbus_slave.c:129-198 | count, exception and stored bytes of the read loop for every address and quantity |
| `BlinkingSlave.Cmd0x10WriteMultipleReg` | Firmware/examples/blinking_modbus_slave/src/blinking_modbus_slave.c:200-264 | outputs and exception after the write loop for every address and quantity |
| `BlinkingSlave.BoardMeetsContract` | Firmware/examples/blinking_modbus_slave/src/blinking_modbus_slave.c:114-198 | the example's callbacks keep the callback contract |
| `BlinkingSlave.BoardAnswersRead` | Firmware/examples/blinking_modbus_slave/src/blinking_modbus_slave.c:129-198 | a read of register 0 or 1 or both is answered with inputs and outputs, every other one with exception 2, in the bytes of the reply |
| `BlinkingSlave.FailedWriteChangesOutputsIff` | Firmware/examples/blinking_modbus_slave/src/blinking_modbus_slave.c:200-264 | a write answered with an exception has changed the outputs exactly if it starts at them, asks for more than one register and carries another value |
| `BlinkingSlave.SuccessfulWriteIff` | Firmware/examples/blinking_modbus_slave/src/blinking_modbus_slave.c:200-264 | a write succeeds exactly for one register at the outputs, and then sets them to its low byte |
| `Master.MasterObj.constructor` | Firmware/modules/modbus/src/ciaaModbus_master.c:339-396 | an opened master has no command and the default timeout and retries |
| `Master.MasterObj.Read` | Firmware/modules/modbus/src/ciaaModbus_master.c:269-335 | accepted exactly if no command is pending and the id is not 0; otherwise nothing changes |
| `Master.MasterObj.WriteSingle` | Firmware/modules/modbus/src/ciaaModbus_master.c:486-617 | the same for the single writes |
| `Master.MasterObj.WriteMultiple` | Firmware/modules/modbus/src/ciaaModbus_master.c:686-751 | the same for the multiple write |
| `Master.MasterObj.ReadWrite` | Firmware/modules/modbus/src/ciaaModbus_master.c:753-824 | the same for the read-write |
| `Master.MasterObj.Task` | Firmware/modules/modbus/src/ciaaModbus_master.c:826-862 | one try less, or the end of the command with a signal and a non-zero exception code |
| `Master.MasterObj.RecvMsg` | Firmware/modules/modbus/src/ciaaModbus_master.c:864-1007 | builds exactly the request of the pending command over the buffer; without a command neither id nor size nor buffer is written |
| `Master.MasterObj.PutWords` | Firmware/modules/modbus/src/ciaaModbus_master.c:956-966 | byte count and values behind the head, in order |
| `Master.MasterObj.PutWrite` | Firmware/modules/modbus/src/ciaaModbus_master.c:947-968 | the request of a multiple write, exactly, over the buffer |
| `Master.MasterObj.PutReadWrite` | Firmware/modules/modbus/src/ciaaModbus_master.c:970-997 | the request of a read-write, exactly, over the buffer |
| `Master.MasterObj.SendMsg` | Firmware/modules/modbus/src/ciaaModbus_master.c:1009-1091 | a message from the slave asked sets the exception code, stores the registers of an expected read, and ends the command with one signal if there is no error |
| `Master.MasterObj.ProcessRead` | Firmware/modules/modbus/src/ciaaModbus_master.c:161-187 | copies exactly the registers asked for, each as the signed value that truncates to it, or refuses without touching the caller's array |
| `Master.MasterObj.ProcessSingle` | Firmware/modules/modbus/src/ciaaModbus_master.c:199-215 | accepts a response to a single write exactly if it names the address and the value |
| `Master.MasterObj.ProcessMultiple` | Firmware/modules/modbus/src/ciaaModbus_master.c:227-243 | accepts a response to a multiple write exactly if it names the address and the quantity |
| `MasterProperties.BalanceStep` | Firmware/modules/modbus/src/ciaaModbus_master.c:826-1091 | signals given plus the pending command grow by one exactly for an accepted command and for a spurious message |
| `MasterProperties.OthersIgnored` | Firmware/modules/modbus/src/ciaaModbus_master.c:1015-1016 | a message from a slave that was not asked changes nothing |
| `MasterProperties.AnswerToPending` | Firmware/modules/modbus/src/ciaaModbus_master.c:1009-1091 | a message from the slave asked ends the pending command if and only if its bytes answer it (byte count and size of a read, address and quantity or value of a write) or are an exception with code 0; the caller's memory, signal and exception code in each case |
| `MasterProperties.UnansweredCommandEnds` | Firmware/modules/modbus/src/ciaaModbus_master.c:826-862 | a command accepted and not answered ends with its one signal and code 0x10 at the try after its `retryComm` ones, whatever other slaves send and other callers ask for, and whatever the command before it ended with |
| `MasterProperties.SpuriousIff` | Firmware/modules/modbus/src/ciaaModbus_master.c:1016-1089 | without a pending command a message gives a signal if and only if it carries function code 0 after a success, or code 0x80 with exception 0 |
| `MasterProperties.SpuriousSignalExists` | Firmware/modules/modbus/src/ciaaModbus_master.c:1016-1089 | there is a run from a master just opened with one command accepted and two signals: the command, its successful response, and a message of zeros |
| `MasterProperties.SignalsBalanceCommands` | Firmware/modules/modbus/src/ciaaModbus_master.c:826-1091 | over every run, signals plus pending equal commands accepted plus spurious messages |
| `MasterProperties.ShortWriteResponseIff` | Firmware/modules/modbus/src/ciaaModbus_master.c:199-215 | a 2-byte response to a single write is completed by the request bytes left in the buffer exactly if its second byte is the high byte of the address |
| `Gateway.FirstServer` | Firmware/modules/modbus/src/ciaaModbus_gateway.c:251-265 | the first server in use of the id, and -1 only if there is none |
| `Gateway.RouteIff` | Firmware/modules/modbus/src/ciaaModbus_gateway.c:244-302 | a message goes to the first server in use of its own id; only if there is none, to the first of id 0; and nowhere if and only if there is neither |
| `Gateway.ProcessExclusive` | Firmware/modules/modbus/src/ciaaModbus_gateway.c:205-456 | one call for any client keeps mutual exclusion, whatever the modules behind it produce |
| `GatewayTable.ApplyInv` | Firmware/modules/modbus/src/ciaaModbus_gateway.c:459-704 | every operation on a handle returned by Open keeps mutual exclusion in every gateway |
| `GatewayTable.EveryRunIsExclusive` | Firmware/modules/modbus/src/ciaaModbus_gateway.c:205-704 | after every run a server is busy if and only if a client waits for it, never two wait for one, and clients that send or wait have an in-range server in use |
| `GatewayCode.GatewayObjs.constructor` | Firmware/modules/modbus/src/ciaaModbus_gateway.c:459-502 | the table that the runs start from |
| `GatewayCode.GatewayObjs.Init` | Firmware/modules/modbus/src/ciaaModbus_gateway.c:459-502 | the loops clear every gateway |
| `GatewayCode.GatewayObjs.Open` | Firmware/modules/modbus/src/ciaaModbus_gateway.c:504-548 | the first gateway not in use is taken with all its slots free, or -1 if all are in use |
| `GatewayCode.GatewayObjs.AddSlave` | Firmware/modules/modbus/src/ciaaModbus_gateway.c:551-583 | 0 if and only if the handles are valid and a server slot is free; the first free one is taken |
| `GatewayCode.GatewayObjs.AddMaster` | Firmware/modules/modbus/src/ciaaModbus_gateway.c:587-618 | the same for a client slot |
| `GatewayCode.GatewayObjs.AddTransport` | Firmware/modules/modbus/src/ciaaModbus_gateway.c:621-677 | a slave transport becomes a client and a master transport a server of id 0, with 0 if and only if the handles are valid and such a slot is free |
| `GatewayCode.GatewayObjs.SearchServer` | Firmware/modules/modbus/src/ciaaModbus_gateway.c:251-281 | the two search loops find the first server in use of the message's id, else the first of id 0, else none |
| `GatewayCode.GatewayObjs.ClientProcess` | Firmware/modules/modbus/src/ciaaModbus_gateway.c:205-456 | the four state functions on the table are one step of the state machine |
| `GatewayCode.GatewayObjs.MainTask` | Firmware/modules/modbus/src/ciaaModbus_gateway.c:680-704 | the nested loops run each client until nothing is pending, five calls at the most |
| `GatewayHold.BoundedHold` | Firmware/modules/modbus/src/ciaaModbus_gateway.c:353-411 | in every interleaving a client waiting with timeout t keeps its server until one of its next t + 1 calls, which leaves it idle and the server free |
| `GatewayHold.RunIsCalls` | Firmware/modules/modbus/src/ciaaModbus_gateway.c:692-701 | a run of the main task for a client is one to five calls for it, each after the first made if and only if the one before left more pending |
| `GatewayHold.RunOfRequest` | Firmware/modules/modbus/src/ciaaModbus_gateway.c:680-704 | the gateway after one run of the main task on a request: dropped without a server, kept while its server is busy, else sent and waited for in the same run, or answered in it, with one more look for a request |
| `GatewayHold.EveryClientHasItsRun` | Firmware/modules/modbus/src/ciaaModbus_gateway.c:688-702 | each run of the main task gives each client one run of calls from the state it was in, whatever the other client's calls do |
| `GatewayHold.QuietTick` | Firmware/modules/modbus/src/ciaaModbus_gateway.c:680-704 | a main task without a response calls a waiting client once and uses one unit of its timeout |
| `Node.HearServerSane` | Firmware/modules/modbus/src/ciaaModbus_gateway.c:359-368 | a server's task and reception keep every index, size and buffer within bounds |
| `NodeProperties.NoCrossTalk` | Firmware/modules/modbus/src/ciaaModbus_gateway.c:205-411 | a call for one client changes no other client, message included, and no slave but the one it uses |
| `NodeProperties.NodeStepKeepsInv` | Firmware/modules/modbus/src/ciaaModbus_gateway.c:308-411 | every call keeps exclusion, bounds, and that a slave somebody waits for points to that client's buffer |
| `NodeProperties.WaitUndisturbed` | Firmware/modules/modbus/src/ciaaModbus_gateway.c:353-411 | while a client waits for a slave, any calls for other clients leave its request and the slave alone |
| `NodeProperties.ReplyIsOwn` | Firmware/modules/modbus/src/ciaaModbus_slave.c:558-584 | the reply a client gets is the slave's answer to that client's own request, whatever the others did in between, handed to the client's own module |
| `NodeProperties.RequestHandedOver` | Firmware/modules/modbus/src/ciaaModbus_gateway.c:308-338 | sending to a free slave hands over the request as it stands and starts the wait with the client's timeout |
| `NodeProperties.IdleNode` | Firmware/modules/modbus/src/ciaaModbus_gateway.c:459-502 | a device with idle clients and free servers satisfies the invariant |
| `MasterTermination.CallMakesProgress` | Firmware/modules/modbus/src/ciaaModbus_gateway.c:205-411 | every call of the only client ends the pending command with its one signal or makes the measure (tries, state, timeout) smaller |
| `MasterTermination.CommandEnds` | Firmware/modules/modbus/src/ciaaModbus_master.c:826-1091 | a pending command ends within the measure's number of calls, pending without a signal until then, with one signal at the end and no more requests than tries, for arbitrary responses, silence and missing routes |
| `MasterTermination.IssuedCommandEnds` | Firmware/modules/modbus/src/ciaaModbus_master.c:269-335 | from issue to end: at most retryComm requests, at most retryComm * (timeout + 4) calls, one signal |
| `EndToEnd.ExchangeByLength` | Firmware/modules/modbus/src/ciaaModbus_ascii.c:159-186 | an exchange delivers request and reply exactly up to 60 bytes each |
| `EndToEnd.ReadRequest` | Firmware/modules/modbus/src/ciaaModbus_master.c:884-902 | the request of a read says address and quantity in 5 bytes |
| `EndToEnd.WriteRequest` | Firmware/modules/modbus/src/ciaaModbus_master.c:947-968 | the request of a multiple write says address, quantity, byte count and values |
| `EndToEnd.ReadWriteRequest` | Firmware/modules/modbus/src/ciaaModbus_master.c:970-997 | the request of a read-write says both ranges, byte count and values |
| `EndToEnd.SingleRequest` | Firmware/modules/modbus/src/ciaaModbus_master.c:904-918 | the request of a single write says address and value in 5 bytes |
| `EndToEnd.RequestWellFormed` | Firmware/modules/modbus/src/ciaaModbus_master.c:864-1007 | what the master builds, for any of its commands with quantities in range, is what the slave accepts |
| `EndToEnd.ReadResponse` | Firmware/modules/modbus/src/ciaaModbus_master.c:161-187 | a reply that spells values ends a read and stores exactly them |
| `EndToEnd.WriteResponse` | Firmware/modules/modbus/src/ciaaModbus_master.c:227-243 | the first 5 bytes of the request, sent back, end a multiple write |
| `EndToEnd.ReadEndToEnd` | Firmware/modules/modbus/src/ciaaModbus_master.c:864-1091 | a read of 1 to 125 registers gives the caller the slave's registers without error exactly up to 29; beyond, nothing happens |
| `EndToEnd.WriteEndToEnd` | Firmware/modules/modbus/src/ciaaModbus_slave.c:443-478 | a write of one register or more sets the slave's registers and completes exactly up to 27; beyond, nothing happens |
| `EndToEnd.ReadWriteEndToEnd` | Firmware/modules/modbus/src/ciaaModbus_slave.c:480-533 | a read-write writes exactly up to 25 registers and completes with the registers after the write exactly up to 29 read; with more to read the write is done and the master not told |
| `EndToEnd.ExceptionEndToEnd` | Firmware/modules/modbus/src/ciaaModbus_master.c:1058-1072 | an exception of the slave reaches the master as the code of a command still pending, the caller's memory as it was |
| `EndToEnd.SingleResponse` | Firmware/modules/modbus/src/ciaaModbus_master.c:199-215 | the request sent back ends a single write |
| `EndToEnd.SingleWriteEndToEnd` | Firmware/modules/modbus/src/ciaaModbus_slave.c:337-400 | a single write of a coil or register, for every application: its callback runs once in the exchange, with the caller's address and value, and the command completes exactly if it raises no exception |
| `EndToEnd.RegisterWriteEndToEnd` | Firmware/modules/modbus/src/ciaaModbus_slave.c:370-400 | over a bank the one register has the caller's value, or the command holds exception 2 |
| `Listening.ListenToLast` | Firmware/modules/modbus/src/ciaaModbus_gateway.c:353-411 | the polls of a waiting client end with the first message reported, and leave the link as they leave it without a client |
| `Listening.ListenLong` | Firmware/modules/modbus/src/ciaaModbus_ascii.c:293-430 | of any stream of frames too long to be reported, in pieces of any size and with any pauses, nothing is heard and the last frame is held |
| `Listening.OwnRequestHeard` | Firmware/modules/modbus/src/ciaaModbus_ascii.c:369-489 | a request not longer than the long frame it is written over, by that frame's length as an int8_t, is heard by the first poll, and the link is empty |
| `Listening.OverlaidIncomplete` | Firmware/modules/modbus/src/ciaaModbus_ascii.c:432-489 | a longer one is no complete frame |
| `Listening.ListenShort` | Firmware/modules/modbus/src/ciaaModbus_ascii.c:293-430 | a frame of at most 127 characters is heard in full, behind whatever incomplete characters the link holds |
| `Retries.LongTry` | Firmware/modules/modbus/src/ciaaModbus_ascii.c:293-489 | one try of a read of 30 registers or more, for every application: what it hears, what it leaves in the link, and what it leaves to the next try of the reply |
| `Retries.LongReadEnds` | Firmware/modules/modbus/src/ciaaModbus_master.c:826-862 | a whole read or read-write of 30 to 125 registers, the link empty or holding or owed a long reply: the slave carries it out on every try; the command ends with the code for a wrong response if and only if it can hear itself and a try finds a reply in the link, and otherwise with the code for a missing response |
| `Retries.TryIsExchange` | Firmware/modules/modbus/src/ciaaModbus_gateway.c:353-411 | on a quiet line a try whose request is not heard or whose reply is short is one exchange, and leaves the line quiet |
| `Retries.ReadCommandEnds` | Firmware/modules/modbus/src/ciaaModbus_master.c:826-862 | a whole read or read-write from a quiet line: completed by the first try exactly up to 25 written and 29 read registers; never heard of with more to write; carried out on every try, with the exact end code, with more to read |
| `Retries.LineExists` | Firmware/modules/modbus/src/ciaaModbus_master.c:826-862 | for every such read there is a line that brings each reply within its try |
| `Retries.WrongCodeExists` | Firmware/modules/modbus/src/ciaaModbus_master.c:826-862 | a run with 70 registers read, one written and three tries: all of them answered rightly, and the code for a wrong response |
| `Oversized.NeverReported` | Firmware/modules/modbus/src/ciaaModbus_ascii.c:159-186 | a frame of more than 127 characters is never reported, not even in part, for every split and every pause |
| `Oversized.AllHeld` | Firmware/modules/modbus/src/ciaaModbus_ascii.c:293-367 | without a pause of the timeout all of its characters stay in the buffer |
| `Oversized.OwnRequestHeardIff` | Firmware/modules/modbus/src/ciaaModbus_ascii.c:432-489 | a request written over such a reply is taken for a received message if and only if it is not longer than the reply's length read as an int8_t |
| `Oversized.RetryHeardIff` | Firmware/modules/modbus/src/ciaaModbus_ascii.c:379-381 | a request of a read, written over a held reply to it, is reported if and only if 66 to 93 registers are read, and of a read-write if those are also at least 68 more than the registers written |
| `Oversized.OwnRequestJudged` | Firmware/modules/modbus/src/ciaaModbus_master.c:161-187 | a read that hears its own request stays pending with the code for a wrong response |
| `TwoNodes.RequestGoesOut` | Firmware/modules/modbus/src/ciaaModbus_gateway.c:205-338 | three calls turn a pending command into its frame on the link its slave id is routed to, with the wait started |
| `TwoNodes.RequestHeard` | Firmware/modules/modbus/src/ciaaModbus_gateway.c:205-230 | an idle link client takes a request that arrives in any pieces, and routes it once it is whole |
| `TwoNodes.WaitOnLink` | Firmware/modules/modbus/src/ciaaModbus_gateway.c:353-411 | a waiting master client polls its link until it hears a message, which goes to the master once, or its timeout is over; link, buffer, server and timeout afterwards |
| `TwoNodes.Answered` | Firmware/modules/modbus/src/ciaaModbus_gateway.c:244-411 | three calls take a routed request through the slave and put the frame of the answer on the client's link |
| `TwoNodes.TryOnLink` | Firmware/modules/modbus/src/ciaaModbus_gateway.c:205-411 | a whole try, whatever the link holds and the line brings: the request once and first of all, then the polls of the link it was written over; the whole device afterwards |
| `TwoNodes.UnansweredTry` | Firmware/modules/modbus/src/ciaaModbus_gateway.c:353-411 | a try whose response is not heard sends the request once and leaves client idle, server free, the command pending with a try less, and the link as its polls leave it, ready for the next try |
| `TwoNodes.OldMessageSentAgain` | Firmware/modules/modbus/src/ciaaModbus_master.c:864-874 | the idle client of a master without a command sends the message it still holds once more, in three calls |
| `TwoNodes.SingleWriteSentAgain` | Firmware/modules/modbus/src/ciaaModbus_gateway.c:205-411 | after the response that completes a single write the same write goes out a second time |
| `TwoNodes.CommandCarriedOut` | Firmware/modules/modbus/src/ciaaModbus_gateway.c:205-411 | a command through two gateways and two links: exactly one frame each way, the request before anything comes in, and master and slave as after the exchange of `EndToEnd`; the master's link may hold any characters that are not its own request complete |
| `TwoNodes.ReadWriteCarriedOut` | Firmware/modules/modbus/src/ciaaModbus_master.c:753-824 | a read-write through two gateways leaves registers, caller's memory and signal as promised |
| `FreshDevices.MasterDeviceAsks` | Firmware/modules/modbus/src/ciaaModbus_gateway.c:587-677 | a device set up by opening a gateway and adding a master and a master transport meets the invariant and is ready to send its master's command to the link |
| `FreshDevices.SlaveDeviceServes` | Firmware/modules/modbus/src/ciaaModbus_gateway.c:551-677 | a device set up by opening a gateway and adding a slave and a slave transport meets the invariant and is ready to serve the slave's id, for every application that keeps the callback contract |
| `FreshDevices.BlinkingDeviceServes` | Firmware/examples/blinking_modbus_slave/src/blinking_modbus_slave.c:332-353 | the example's device, with its callbacks and its id, does |
| `FreshDevices.SetUp` | Firmware/modules/modbus/src/ciaaModbus_gateway.c:504-677 | opening a gateway and adding a master or a slave and its transport, from the table after its initialisation, leads to the gateways these devices have |
| `FreshDevices.EveryReadWriteCarriedOut` | Firmware/modules/modbus/src/ciaaModbus_master.c:753-824 | between two devices just set up, the line handing each exactly the characters the other wrote, in any pieces, every read-write command of up to 29 and 25 registers inside the bank is carried out and completed |
| `FreshDevices.EveryReadWriteHasItsFrames` | Firmware/modules/modbus/src/ciaaModbus_master.c:753-824 | the same with one frame each way, both of which exist |
| `RetriesOnDevices.TryOnDevice` | Firmware/modules/modbus/src/ciaaModbus_gateway.c:205-411 | the calls of one try make of the master's device what `Retries.Try` says: master, buffer and link |
| `RetriesOnDevices.CommandOnDevice` | Firmware/modules/modbus/src/ciaaModbus_master.c:826-1091 | a whole command on its device is the command of `Retries`, for every slave and every line, with one frame of the request for each try and nothing else |
| `RetriesOnDevices.LongReadOnDevice` | Firmware/modules/modbus/src/ciaaModbus_master.c:826-862 | a read of 30 to 125 registers on its device: as many frames as tries, and the exact end code |
| `RetriesOnDevices.WrongCodeOnDevice` | Firmware/modules/modbus/src/ciaaModbus_master.c:826-862 | a run of a device just set up that ends with the code for a wrong response after three tries |
| `Mask.IsPowerOfTwoIff` | Firmware/modules/libs/inc/ciaaLibs_Maths.h:72 | the bit trick accepts a number if and only if it is 2^k for some k |
| `Mask.AndMask` | Firmware/modules/libs/inc/ciaaLibs_CircBuf.h:87-88 | masking with 2^k - 1 is the remainder modulo 2^k |
| `Mask.MaskIsModulo` | Firmware/modules/libs/inc/ciaaLibs_CircBuf.h:87-190 | masking a wrapped, possibly negative difference is arithmetic modulo the buffer's size |
| `CircBuf.MacrosMeasureTheRing` | Firmware/modules/libs/inc/ciaaLibs_CircBuf.h:87-190 | space plus count is N - 1, the raw amounts are their parts before the end of the storage, empty and full agree with count and space 0 |
| `CircBuf.AdvanceWraps` | Firmware/modules/libs/inc/ciaaLibs_CircBuf.h:133-144 | a published index wraps around the ring |
| `CircBuf.WriteEffect` | Firmware/modules/libs/inc/ciaaLibs_CircBuf.h:113-134 | bytes stored at the write position in one segment or two, then published, are appended to the queue |
| `CircBuf.ReadEffect` | Firmware/modules/libs/inc/ciaaLibs_CircBuf.h:123-144 | bytes copied from the read position in one segment or two, then released, are the front of the queue |
| `CircBuf.CircBufType.Init` | Firmware/modules/libs/src/ciaaLibs_CircBuf.c:106-123 | accepts exactly buffers of a power of two of at least 8 cells, as an empty queue, and refuses without a trace |
| `CircBuf.CircBufType.Put` | Firmware/modules/libs/src/ciaaLibs_CircBuf.c:131-166 | appends all bytes if they fit and none otherwise |
| `CircBuf.CircBufType.Get` | Firmware/modules/libs/src/ciaaLibs_CircBuf.c:168-204 | takes the longest available front of at most nbytes bytes |
| `CircBuf.CircBufType.UpdateTail` | Firmware/modules/libs/inc/ciaaLibs_CircBuf.h:133-134 | publishing bytes stored by the caller appends them |
| `CircBuf.CircBufType.UpdateHead` | Firmware/modules/libs/inc/ciaaLibs_CircBuf.h:143-144 | releasing bytes used by the caller takes them off the front |
| `CircBuf.CircBufType.Clean` | Firmware/modules/libs/inc/ciaaLibs_CircBuf.h:197-201 | leaves the empty queue |
| `CircBufInterleaving.StepKeepsInv` | Firmware/modules/libs/src/ciaaLibs_CircBuf.c:131-204 | each single step of either side keeps the invariant that ties both stale snapshots to the ring |
| `CircBufInterleaving.EveryInterleavingConserves` | Firmware/modules/libs/src/ciaaLibs_CircBuf.c:131-204 | in every interleaving bytes delivered, followed by bytes resident, are the bytes accepted |
| `CircBufInterleaving.EveryInterleavingIsRaceFree` | Firmware/modules/libs/src/ciaaLibs_CircBuf.c:131-204 | in every interleaving the writer never stores into a cell the reader may still be copying |
| `CircBufInterleaving.EveryStepIsAQueueStep` | Firmware/modules/libs/src/ciaaLibs_CircBuf.c:131-204 | every step is a step of a queue of capacity N - 1: publishing appends a whole block or drops the delivered front, refusals and amounts follow the queue's length at the snapshot |

## Left out

- Coil commands of the master (0x01, 0x02 and 0x0F): the request builder copies a byte for each coil and the read check ignores the quantity asked for, so their statements would need preconditions no caller sees.
- Master.MasterObj.WriteMultiple: assumes a request that fits the gateway's 256-byte buffer, so up to 125 registers; the source does not check this and would write behind the buffer. The blocking call's return value is left out as for `Master.MasterObj.Read`.
- Master.MasterObj.ReadWrite: assumes a request that fits the gateway's 256-byte buffer, so up to 123 registers written. The blocking call's return value is left out as for `Master.MasterObj.Read`.
- Master.MasterObj.Read: the waiting for the event, and so the return value of a blocking call, is not modelled; the completion is an entry of a log, with its exception code, and a return value of 0 stands for acceptance.
- Master.MasterObj.WriteSingle: takes the coil's value as 0xFF00 or 0 in a signed 16-bit field, as the source stores it; the blocking call's return value is left out as for `Master.MasterObj.Read`.
- AsciiLink.AsciiObj.SendMsg: assumes a PDU of at most 510 bytes, which every 256-byte client buffer meets; the source stores id, PDU and check byte before it looks at the length.
- AsciiLink.AsciiObj.RecvMsg: assumes room for 61 bytes at `pdu`, one more than the longest PDU, because the check byte is copied too.
- Slave.SlaveObj.Task: the callbacks are functions of an application state and of the bytes of the request they are given, not C functions with access to the rest of the buffer; what they promise is `Slave.Contract`, a read that stores at most what was asked for.
- GatewayTable.EveryRunIsExclusive: for handles returned by Open; on a handle that was never opened the source would work with slots of an unused gateway.
- NodeProperties.ReplyIsOwn: for slave handles that were added to the gateway once; a slave added twice is shared by two servers. In a device a slave's buffer reference is the number of the client, and the bytes a callback may leave behind the reply are an input.
- MasterTermination.CommandEnds: for a master that is the only client of its gateway; with other clients a busy server can hold the command up, because the gateway has no fairness, which the model does not claim.
- TwoNodes.CommandCarriedOut: for a master's client that starts idle, with no other client called meanwhile. If the master's link holds its own request complete once it is written, that is heard first; those commands are followed in `Retries`. Delivery at most once is not claimed, and does not hold (`TwoNodes.SingleWriteSentAgain`).
- RetriesOnDevices.CommandOnDevice: for messages of two bytes or more. A message of one byte goes to the client's buffer and the wait goes on, which `Retries.Try` does not follow; neither masters nor slaves of this stack write one.
- CircBufInterleaving.EveryInterleavingConserves: assumes sequentially consistent memory and one caller of each side.
- AsciiLink.AsciiObj.constructor: one object; the search of asciiOpen for a free one, and -1 if there is none, are not modelled. A transport is its ASCII link: the dispatch of the transport layer has empty RTU and TCP branches.
- Slave.SlaveObj.constructor: one object; slaveOpen's refusal of ids outside 1 to 247 and of a null callback table, and its search for a free object, are not modelled. The results hold for every id.
- Master.MasterObj.constructor: one object; the search of masterOpen for a free one is not modelled.
- Retries.LongReadEnds: for lines that bring each reply before its try is over, not later or damaged; for links that hold nothing or a long reply of the quantity asked for, or are owed one; and for a response timeout shorter than the link's, as 300 and 1000 milliseconds are. The slave is the bank of registers, and its own link, which is idle between tries, is the one of `EndToEnd.Exchange`.
- circBufNew and circBufRel: memory allocation.
- Critical sections and preemption (GetResource, ReleaseResource, GetTaskID) around the tables and inside the master's commands.
- Device drivers: a read returns any characters, at most as many as asked for; a write goes to a log.
- A caller of 0x17 that passes one array for reading and writing: `Master.MasterObj.SendMsg` covers it, the devices take the two as separate.
- Board support, kernel, POSIX layer, PLC headers, lwIP echo example, build tools and menus.
