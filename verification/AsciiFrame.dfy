/** Frames of MODBUS ASCII (MODBUS over Serial Line V1.02, section 2.5.2.1) and the exact
    condition under which the receiver reports a message. */
module AsciiFrame {
  import opened Bytes
  import opened Lrc
  import opened HexCodec

  const START: byte := 0x3A
  const END_1: byte := 0x0D
  const END_2: byte := 0x0A
  const MAX_LENGTH: nat := 512
  const MIN_LENGTH: nat := 9

  /** A slave id and a protocol data unit. */
  datatype Msg = Msg(id: byte, pdu: seq<byte>)

  /** Id and PDU followed by their check byte. */
  function Payload(m: Msg): seq<byte> {
    [m.id] + m.pdu + [CheckByte([m.id] + m.pdu)]
  }

  /** The characters of a message on the line. */
  function Frame(m: Msg): seq<byte> {
    [START] + Hex(Payload(m)) + [END_1, END_2]
  }

  /** First position from `from` on where the two end characters stand, plus two; -1 if none
      stands within the first `length` characters. */
  function FindEnd(buf: seq<byte>, from: nat, length: int): (end: int)
    requires length <= |buf|
    ensures end == -1 || from + 2 <= end <= length
    decreases length - from
  {
    if from < length - 1 then
      if buf[from] == END_1 && buf[from + 1] == END_2 then from + 2 else FindEnd(buf, from + 1, length)
    else
      -1
  }

  /** Length of the complete frame at the start of the received characters, or -1.
      The number of characters is passed as an int8_t. */
  function CompleteLength(live: seq<byte>): (end: int)
    ensures end == -1 || MIN_LENGTH <= end <= |live|
  {
    var length := ToInt8(|live|);
    if MIN_LENGTH <= length && live[0] == START then FindEnd(live, MIN_LENGTH - 2, length) else -1
  }

  /** The message reported for the received characters, if any. */
  function Receive(live: seq<byte>): Option<Msg> {
    var end := CompleteLength(live);
    if end < MIN_LENGTH then None
    else
      match Unhex(live[1..end - 2])
      case None => None
      case Some(bs) =>
        if |bs| > 0 && Checks(bs) then Some(Msg(bs[0], bs[1..|bs| - 1])) else None
  }

  lemma FrameLength(m: Msg)
    ensures |Frame(m)| == 2 * |m.pdu| + 7
  {
  }

  lemma FrameShape(m: Msg)
    ensures |Frame(m)| == 2 * |m.pdu| + 7
    ensures Frame(m)[0] == START
    ensures Frame(m)[1..|Frame(m)| - 2] == Hex(Payload(m))
    ensures Frame(m)[|Frame(m)| - 2] == END_1 && Frame(m)[|Frame(m)| - 1] == END_2
    ensures forall i :: 1 <= i < |Frame(m)| - 2 ==> IsHex(Frame(m)[i])
  {
    HexIsHex(Payload(m));
    assert Frame(m)[1..|Frame(m)| - 2] == Hex(Payload(m));
    forall i | 1 <= i < |Frame(m)| - 2
      ensures IsHex(Frame(m)[i])
    {
      assert Frame(m)[i] == Hex(Payload(m))[i - 1];
    }
  }

  /** The characters `cs` hold two upper-case hexadecimal digits for each byte, the high one first. */
  ghost predicate Spells(cs: seq<byte>, bs: seq<byte>) {
    && |cs| == 2 * |bs|
    && forall i :: 0 <= i < |bs| ==>
         cs[2 * i] == Text("0123456789ABCDEF")[bs[i] / 16] && cs[2 * i + 1] == Text("0123456789ABCDEF")[bs[i] % 16]
  }

  /** A frame, character for character: a colon, the digits of id, PDU and a byte that makes their sum a
      multiple of 256, carriage return and line feed. */
  lemma FrameSpelled(m: Msg) returns (check: byte)
    ensures (Sum([m.id] + m.pdu) + check) % 256 == 0
    ensures var f := Frame(m);
            && |f| == 2 * |m.pdu| + 7 && f[0] == 0x3A && f[|f| - 2] == 0x0D && f[|f| - 1] == 0x0A
            && Spells(f[1..|f| - 2], [m.id] + m.pdu + [check])
  {
    hide Sum, Text, Hex;
    var bs := [m.id] + m.pdu;
    check := CheckByte(bs);
    NegationModulo(Sum(bs), check);
    FrameShape(m);
    forall i | 0 <= i < |Payload(m)|
      ensures Hex(Payload(m))[2 * i] == Text("0123456789ABCDEF")[Payload(m)[i] / 16]
      ensures Hex(Payload(m))[2 * i + 1] == Text("0123456789ABCDEF")[Payload(m)[i] % 16]
    {
      HexPair(Payload(m), i);
      Alphabet(0);
    }
  }

  /** The request to read one holding register of slave 1: ":010300000001FB" and the two end characters. */
  lemma FrameOfARead()
    ensures Frame(Msg(1, [3, 0, 0, 0, 1])) ==
            [0x3A, 0x30, 0x31, 0x30, 0x33, 0x30, 0x30, 0x30, 0x30, 0x30, 0x30, 0x30, 0x31, 0x46, 0x42, 0x0D, 0x0A]
  {
    hide Sum, Hex;
    var bs: seq<byte> := [1, 3, 0, 0, 0, 1];
    SumOfSix(bs);
    NegationModulo(Sum(bs), 0xFB);
    assert [1] + [3, 0, 0, 0, 1] == bs;
    assert Payload(Msg(1, [3, 0, 0, 0, 1])) == [1, 3, 0, 0, 0, 1, 0xFB];
    assert |Hex([])| == 0;
    HexOfFirst(0xFB, [], [0xFB]);
    HexOfFirst(1, [0xFB], [1, 0xFB]);
    HexOfFirst(0, [1, 0xFB], [0, 1, 0xFB]);
    HexOfFirst(0, [0, 1, 0xFB], [0, 0, 1, 0xFB]);
    HexOfFirst(0, [0, 0, 1, 0xFB], [0, 0, 0, 1, 0xFB]);
    HexOfFirst(3, [0, 0, 0, 1, 0xFB], [3, 0, 0, 0, 1, 0xFB]);
    HexOfFirst(1, [3, 0, 0, 0, 1, 0xFB], [1, 3, 0, 0, 0, 1, 0xFB]);
  }

  lemma SumOfSix(bs: seq<byte>)
    requires |bs| == 6
    ensures Sum(bs) - bs[0] - bs[1] - bs[2] - bs[3] - bs[4] - bs[5] == 0
  {
    forall k | 0 <= k < 6
      ensures Sum(bs[..k + 1]) == Sum(bs[..k]) + bs[k]
    {
      assert bs[..k + 1][..k] == bs[..k];
    }
    assert bs[..0] == [] && bs[..6] == bs;
  }

  lemma HexOfFirst(b: byte, bs: seq<byte>, all: seq<byte>)
    requires all == [b] + bs
    ensures Hex(all) == [HexDigit(b / 16), HexDigit(b % 16)] + Hex(bs)
  {
    hide HexDigit;
    var left, right := Hex(all), [HexDigit(b / 16), HexDigit(b % 16)] + Hex(bs);
    forall k | 0 <= k < 2 * (|bs| + 1)
      ensures left[k] == right[k]
    {
      if k >= 2 {
        assert k / 2 == (k - 2) / 2 + 1 && k % 2 == (k - 2) % 2;
      }
    }
  }

  /** The search finds the first pair of end characters. */
  lemma {:induction false} FindEndFirst(buf: seq<byte>, from: nat, length: int, at: nat)
    requires length <= |buf| && from <= at < length - 1
    requires buf[at] == END_1 && buf[at + 1] == END_2
    requires forall i :: from <= i < at ==> buf[i] != END_1
    ensures FindEnd(buf, from, length) == at + 2
    decreases at - from
  {
    if from < at {
      FindEndFirst(buf, from + 1, length, at);
    }
  }

  lemma {:induction false} FindEndFound(buf: seq<byte>, from: nat, length: int)
    requires length <= |buf|
    ensures var end := FindEnd(buf, from, length);
            end != -1 ==> buf[end - 2] == END_1 && buf[end - 1] == END_2
    decreases length - from
  {
    if from < length - 1 && !(buf[from] == END_1 && buf[from + 1] == END_2) {
      FindEndFound(buf, from + 1, length);
    }
  }

  /** What is taken for a complete frame: a colon in front and the first carriage return and line feed
      from position 7 on, within the number of characters read as an int8_t. */
  lemma CompleteIff(live: seq<byte>, end: nat)
    ensures CompleteLength(live) == end <==>
            && 9 <= end <= ToInt8(|live|) <= |live| && live[0] == 0x3A && live[end - 2] == 0x0D && live[end - 1] == 0x0A
            && forall i :: 7 <= i < end - 2 ==> !(live[i] == 0x0D && live[i + 1] == 0x0A)
  {
    if ToInt8(|live|) >= 9 {
      FirstEndIff(live, 7, ToInt8(|live|), end);
    }
  }

  lemma {:induction false} FirstEndIff(buf: seq<byte>, from: nat, length: int, end: nat)
    requires length <= |buf|
    ensures FindEnd(buf, from, length) == end <==>
            && from + 2 <= end <= length && buf[end - 2] == END_1 && buf[end - 1] == END_2
            && forall i :: from <= i < end - 2 ==> !(buf[i] == END_1 && buf[i + 1] == END_2)
    decreases length - from
  {
    if from < length - 1 && !(buf[from] == END_1 && buf[from + 1] == END_2) {
      FirstEndIff(buf, from + 1, length, end);
    }
  }

  /** A block that checks is the payload of the message read off it. */
  lemma PayloadOfChecked(bs: seq<byte>)
    requires |bs| >= 2 && Checks(bs)
    ensures Payload(Msg(bs[0], bs[1..|bs| - 1])) == bs
  {
    assert [bs[0]] + bs[1..|bs| - 1] == bs[..|bs| - 1];
  }

  lemma PayloadChecks(m: Msg)
    ensures Checks(Payload(m))
    ensures |Payload(m)| == |m.pdu| + 2 && Payload(m)[0] == m.id && Payload(m)[1..|m.pdu| + 1] == m.pdu
  {
    AppendedLrcChecks([m.id] + m.pdu);
  }

  /** Whatever is reported stood on the line character for character. */
  lemma ReceivedWasSent(live: seq<byte>)
    requires Receive(live).Some?
    ensures var m := Receive(live).value;
            |m.pdu| >= 1 && CompleteLength(live) == |Frame(m)| <= ToInt8(|live|) && live[..|Frame(m)|] == Frame(m)
  {
    hide Frame, Payload, Hex, PairAt, AllHex, Checks, FindEnd;
    var m, end := Receive(live).value, CompleteLength(live);
    FindEndFound(live, MIN_LENGTH - 2, ToInt8(|live|));
    var bs := Unhex(live[1..end - 2]).value;
    PayloadOfChecked(bs);
    HexUnhex(live[1..end - 2]);
    FrameFromParts(live, end, m);
  }

  lemma FrameFromParts(live: seq<byte>, end: nat, m: Msg)
    requires 3 <= end <= |live|
    requires live[0] == START && live[end - 2] == END_1 && live[end - 1] == END_2
    requires live[1..end - 2] == Hex(Payload(m))
    ensures live[..end] == Frame(m)
  {
    assert live[..end] == [live[0]] + live[1..end - 2] + [live[end - 2], live[end - 1]];
  }

  lemma SentIsReceived(live: seq<byte>, m: Msg)
    requires |m.pdu| >= 1 && |Frame(m)| <= ToInt8(|live|) && Frame(m) <= live
    ensures Receive(live) == Some(m) && CompleteLength(live) == |Frame(m)|
  {
    hide Frame, Payload, Hex, Unhex, Checks, CompleteLength;
    FrameLength(m);
    SentIsComplete(live, m);
    UnhexHex(Payload(m));
    MessageOfPayload(m);
  }

  lemma SentIsComplete(live: seq<byte>, m: Msg)
    requires |m.pdu| >= 1 && |Frame(m)| <= ToInt8(|live|) && Frame(m) <= live
    ensures CompleteLength(live) == |Frame(m)| && live[1..|Frame(m)| - 2] == Hex(Payload(m))
  {
    FrameAtStart(live, m);
    FindEndFirst(live, MIN_LENGTH - 2, ToInt8(|live|), |Frame(m)| - 2);
  }

  lemma MessageOfPayload(m: Msg)
    ensures var bs := Payload(m); |bs| > 0 && Checks(bs) && Msg(bs[0], bs[1..|bs| - 1]) == m
  {
    PayloadChecks(m);
  }

  lemma FrameAtStart(live: seq<byte>, m: Msg)
    requires Frame(m) <= live
    ensures var n := |Frame(m)|;
            && n == 2 * |m.pdu| + 7 && live[0] == START
            && live[1..n - 2] == Hex(Payload(m))
            && live[n - 2] == END_1 && live[n - 1] == END_2
            && forall i :: 1 <= i < n - 2 ==> IsHex(live[i])
  {
    FrameShape(m);
    var n := |Frame(m)|;
    assert forall i :: 0 <= i < n ==> live[i] == Frame(m)[i];
    assert live[1..n - 2] == Frame(m)[1..n - 2];
  }

  /** MAIN: a message is reported exactly when its frame, for a PDU of at least one byte, stands at
      the start of the received characters and is no longer than their number read as an int8_t. */
  lemma ReceivesIff(live: seq<byte>, m: Msg)
    ensures Receive(live) == Some(m) <==>
            |m.pdu| >= 1 && |Frame(m)| <= ToInt8(|live|) && Frame(m) <= live
  {
    if Receive(live) == Some(m) {
      ReceivedWasSent(live);
    }
    if |m.pdu| >= 1 && |Frame(m)| <= ToInt8(|live|) && Frame(m) <= live {
      SentIsReceived(live, m);
    }
  }

  /** No message has a frame that continues the frame of another one. */
  lemma FramesArePrefixFree(m: Msg, m': Msg)
    requires Frame(m') <= Frame(m)
    ensures m' == m
  {
    FrameShape(m);
    FrameShape(m');
    var n := |Frame(m')|;
    assert Frame(m)[n - 2] == Frame(m')[n - 2];
    assert n == |Frame(m)|;
    FrameInjective(m, m');
  }

  lemma FrameInjective(m: Msg, m': Msg)
    requires Frame(m) == Frame(m')
    ensures m == m'
  {
    FrameShape(m);
    FrameShape(m');
    UnhexHex(Payload(m));
    UnhexHex(Payload(m'));
    PayloadChecks(m);
    PayloadChecks(m');
  }

  /** MAIN: the frame of a message is reported as that message exactly for PDUs of 1 to 60 bytes;
      any other frame is never reported as anything. */
  lemma RoundTripIff(m: Msg)
    ensures Receive(Frame(m)) == (if 1 <= |m.pdu| <= 60 then Some(m) else None)
  {
    FrameShape(m);
    ReceivesIff(Frame(m), m);
    if Receive(Frame(m)).Some? {
      ReceivedWasSent(Frame(m));
      FramesArePrefixFree(m, Receive(Frame(m)).value);
    }
  }

  /** The only payload whose characters differ from those of `bs` in the pair of position `k` differs
      from `bs` in that byte. */
  lemma OneCharacterOneByte(bs: seq<byte>, bs': seq<byte>, k: nat, c: byte)
    requires k < 2 * |bs| && c != Hex(bs)[k]
    requires Hex(bs') == Hex(bs)[k := c]
    ensures |bs'| == |bs| && bs'[k / 2] != bs[k / 2] && bs' == bs[k / 2 := bs'[k / 2]]
  {
    UnhexHex(bs);
    UnhexHex(bs');
    forall i | 0 <= i < |bs| && i != k / 2
      ensures bs'[i] == bs[i]
    {
      assert Hex(bs')[2 * i] == Hex(bs)[2 * i] && Hex(bs')[2 * i + 1] == Hex(bs)[2 * i + 1];
    }
    if bs' == bs {
      assert false;
    }
    assert exists i :: 0 <= i < |bs| && bs'[i] != bs[i];
  }

  /** Replacing one character of a frame leaves at most one place for the end characters. */
  lemma ChangedFrameEnds(m: Msg, k: nat, c: byte, m': Msg)
    requires k < |Frame(m)| && c != Frame(m)[k]
    requires Frame(m') <= Frame(m)[k := c]
    ensures |Frame(m')| == |Frame(m)| && 1 <= k < |Frame(m)| - 2
  {
    FrameShape(m);
    FrameAtStart(Frame(m)[k := c], m');
  }

  lemma ChangedPayload(m: Msg, k: nat, c: byte, m': Msg)
    requires 1 <= k < |Frame(m)| - 2 && c != Frame(m)[k]
    requires Frame(m') == Frame(m)[k := c]
    ensures Hex(Payload(m')) == Hex(Payload(m))[k - 1 := c] && Hex(Payload(m))[k - 1] != c
  {
    FrameShape(m);
    FrameShape(m');
    var n := |Frame(m)|;
    assert Frame(m)[k := c][1..n - 2] == Frame(m)[1..n - 2][k - 1 := c];
  }

  /** MAIN: whatever single character of a frame is replaced by whatever other character, the result
      is not reported as a message. */
  lemma OneCharacterChangeRejected(m: Msg, k: nat, c: byte)
    requires k < |Frame(m)| && c != Frame(m)[k]
    ensures Receive(Frame(m)[k := c]) == None
  {
    var changed := Frame(m)[k := c];
    if Receive(changed).Some? {
      var m' := Receive(changed).value;
      ReceivedWasSent(changed);
      ChangedFrameEnds(m, k, c, m');
      assert Frame(m') == changed;
      ChangedPayload(m, k, c, m');
      OneCharacterOneByte(Payload(m), Payload(m'), k - 1, c);
      PayloadChecks(m);
      PayloadChecks(m');
      OneByteChangeDetected(Payload(m), (k - 1) / 2, Payload(m')[(k - 1) / 2]);
    }
  }

  /** The characters of a block between the delimiters of a frame. */
  function Enclosed(bs: seq<byte>): seq<byte> {
    [START] + Hex(bs) + [END_1, END_2]
  }

  /** Characters that stand as a frame's are the frame's only if they spell its payload. */
  lemma EnclosedFrame(bs: seq<byte>, m: Msg)
    requires Frame(m) <= Enclosed(bs)
    ensures Payload(m) == bs
  {
    hide Frame, Hex, Payload;
    var n := |Frame(m)|;
    FrameShape(m);
    HexIsHex(bs);
    assert Frame(m)[n - 2] == Enclosed(bs)[n - 2];
    assert n == |Enclosed(bs)|;
    assert Enclosed(bs)[1..n - 2] == Hex(bs);
    UnhexHex(bs);
    UnhexHex(Payload(m));
  }

  /** MAIN: whatever single byte of the decoded block of a frame is replaced by whatever other byte, id
      and check byte included, both of its characters or one of them, the result is not reported as a
      message. */
  lemma OneByteChangeRejected(m: Msg, k: nat, b: byte)
    requires k < |Payload(m)| && b != Payload(m)[k]
    ensures Receive(Enclosed(Payload(m)[k := b])) == None
  {
    hide Frame, Hex, Payload, Receive, Checks;
    var changed := Enclosed(Payload(m)[k := b]);
    PayloadChecks(m);
    OneByteChangeDetected(Payload(m), k, b);
    if Receive(changed).Some? {
      var m' := Receive(changed).value;
      ReceivedWasSent(changed);
      EnclosedFrame(Payload(m)[k := b], m');
      PayloadChecks(m');
    }
  }
}
