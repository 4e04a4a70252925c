/** A reference application for the slave: a bank of holding registers behind the read and write
    callbacks. */
module RegisterFile {
  import opened Bytes
  import opened Modbus
  import opened Slave
  import opened SlaveProperties

  type Bank = seq<word>

  function ReadRegs(regs: Bank, start: word, quantity: word): ReadResult<Bank> {
    if start + quantity <= |regs| then
      ReadResult(regs, quantity, E_NO_ERROR, Unwords(regs[start..start + quantity]))
    else
      ReadResult(regs, 0, E_WRONG_STR_ADDR, [])
  }

  /** `regs` with the words of `data` from `start` on. */
  function Written(regs: Bank, start: nat, data: seq<byte>): Bank
    requires start + |data| / 2 <= |regs|
  {
    regs[..start] + Words(data) + regs[start + |data| / 2..]
  }

  function WriteRegs(regs: Bank, start: word, quantity: word, data: seq<byte>): WriteResult<Bank> {
    if start + quantity <= |regs| && |data| == 2 * quantity then
      WriteResult(Written(regs, start, data), E_NO_ERROR)
    else
      WriteResult(regs, E_WRONG_STR_ADDR)
  }

  /** Holding and input registers are the same bank; coils are not offered. */
  const BANK: Callbacks<Bank> :=
    Callbacks(None, None,
              Some((r: Bank, s: word, q: word) => ReadRegs(r, s, q)),
              Some((r: Bank, s: word, q: word) => ReadRegs(r, s, q)),
              None, Some((r: Bank, s: word, d: seq<byte>) => WriteRegs(r, s, 1, d)), None,
              Some((r: Bank, s: word, q: word, d: seq<byte>) => WriteRegs(r, s, q, d)))

  lemma BankMeetsContract()
    ensures Contract(BANK)
  {
    forall regs: Bank, start: word, quantity: word | 1 <= quantity <= MAX_READ_REGS
      ensures var r := ReadRegs(regs, start, quantity);
              && |r.data| <= 2 * quantity
              && (r.exc == E_NO_ERROR ==> r.count == quantity && |r.data| == 2 * quantity)
    {
    }
  }

  lemma WordsAt(bs: seq<byte>, i: nat)
    requires 2 * i + 1 < |bs|
    ensures Words(bs)[i] == WordAt(bs, 2 * i)
  {
  }

  /** MAIN: function 0x17 on a register bank answers with the bank after its own write, for ranges
      that overlap or not: a register that the same request wrote reads as the value written, every
      other one as before. */
  lemma ReadWriteSeesOwnWrite(regs: Bank, pdu: seq<byte>)
    requires pdu != [] && pdu[0] == READ_WRITE_MULTIPLE_REGISTERS && WellFormed(pdu)
    requires WordAt(pdu, 1) + WordAt(pdu, 3) <= |regs| && WordAt(pdu, 5) + WordAt(pdu, 7) <= |regs|
    ensures var s, startR, quantityR, startW, quantityW := Serve(BANK, regs, pdu), WordAt(pdu, 1), WordAt(pdu, 3),
            WordAt(pdu, 5), WordAt(pdu, 7);
            && |s.reply| == 2 + 2 * quantityR && s.reply[0] == pdu[0] && s.reply[1] == 2 * quantityR
            && |s.app| == |regs|
            && (forall a :: 0 <= a < |regs| ==>
                  s.app[a] == if startW <= a < startW + quantityW then WordAt(pdu, 10 + 2 * (a - startW)) else regs[a])
            && (forall i :: 0 <= i < quantityR ==> WordAt(s.reply, 2 + 2 * i) == s.app[startR + i])
  {
    hide Serve, Written, Words, Unwords, WordAt;
    var startR, quantityR, startW, quantityW := WordAt(pdu, 1), WordAt(pdu, 3), WordAt(pdu, 5), WordAt(pdu, 7);
    var regs' := Written(regs, startW, pdu[10..]);
    WrittenAt(regs, startW, pdu, 10, quantityW);
    ReadReply(regs', startR, quantityR, pdu[0]);
    ReadWriteOutcome(regs, pdu);
  }

  lemma WrittenAt(regs: Bank, start: nat, pdu: seq<byte>, at: nat, quantity: nat)
    requires at <= |pdu| == at + 2 * quantity && start + quantity <= |regs|
    ensures var regs' := Written(regs, start, pdu[at..]);
            |regs'| == |regs| && forall a :: 0 <= a < |regs| ==>
              regs'[a] == if start <= a < start + quantity then WordAt(pdu, at + 2 * (a - start)) else regs[a]
  {
    var data := pdu[at..];
    forall i | 0 <= i < quantity
      ensures Words(data)[i] == WordAt(pdu, at + 2 * i)
    {
      WordsAt(data, i);
    }
  }

  /** The words of a block behind a head of two bytes. */
  lemma WordHeld(head: seq<byte>, values: seq<word>, held: seq<byte>, i: nat)
    requires |head| == 2 && i < |values| && head + Unwords(values) <= held
    ensures 2 + 2 * i + 1 < |held| && WordAt(held, 2 + 2 * i) == values[i]
  {
    hide Unwords, WriteInt;
    var reply := head + Unwords(values);
    UnwordsAt(values, i);
    ReadWriteInt(values[i]);
    assert held[2 + 2 * i] == reply[2 + 2 * i] && held[3 + 2 * i] == reply[3 + 2 * i];
  }

  lemma ReadReply(regs: Bank, start: nat, quantity: nat, code: byte)
    requires start + quantity <= |regs| && quantity <= MAX_READ_REGS
    ensures var reply := [code, ToUint8(2 * quantity)] + Unwords(regs[start..start + quantity]);
            |reply| == 2 + 2 * quantity && forall i :: 0 <= i < quantity ==> WordAt(reply, 2 + 2 * i) == regs[start + i]
  {
    hide Unwords, WordAt;
    var values, head := regs[start..start + quantity], [code, ToUint8(2 * quantity)];
    forall i | 0 <= i < quantity
      ensures WordAt(head + Unwords(values), 2 + 2 * i) == values[i]
    {
      WordHeld(head, values, head + Unwords(values), i);
    }
  }

  lemma ReadWriteOutcome(regs: Bank, pdu: seq<byte>)
    requires pdu != [] && pdu[0] == READ_WRITE_MULTIPLE_REGISTERS && WellFormed(pdu)
    requires WordAt(pdu, 1) + WordAt(pdu, 3) <= |regs| && WordAt(pdu, 5) + WordAt(pdu, 7) <= |regs|
    ensures var startR, quantityR, regs' := WordAt(pdu, 1), WordAt(pdu, 3), Written(regs, WordAt(pdu, 5), pdu[10..]);
            Serve(BANK, regs, pdu) == Served(
              [pdu[0], ToUint8(2 * quantityR)] + Unwords(regs'[startR..startR + quantityR]), regs',
              [Write(pdu[0], WordAt(pdu, 5), WordAt(pdu, 7), pdu[10..]), Read(pdu[0], startR, quantityR)])
  {
  }
}
