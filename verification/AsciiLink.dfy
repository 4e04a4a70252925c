/** The ASCII link layer: one 512-byte buffer shared by reception and transmission, with an
    inter-character timeout. `Link` is its abstract value, the class below the code itself. */
module AsciiLink {
  import opened Bytes
  import L = Lrc
  import opened HexCodec
  import opened AsciiFrame

  /** The received characters still held, and the ticks left until they are discarded. */
  datatype Link = Link(live: seq<byte>, timeOut: nat)

  /** Start of a tick: an exhausted timeout discards the characters held. */
  function Expire(l: Link): Link {
    if l.timeOut == 0 then l.(live := []) else l.(timeOut := l.timeOut - 1)
  }

  /** Number of characters the next read asks for; a full buffer is discarded first. */
  function Room(l: Link): (n: nat)
    requires |l.live| <= MAX_LENGTH
    ensures 0 < n <= MAX_LENGTH
  {
    var held := |Expire(l).live|;
    if held == MAX_LENGTH then MAX_LENGTH else MAX_LENGTH - held
  }

  /** Position of the last start character, or -1. */
  function LastStart(s: seq<byte>): (at: int)
    ensures -1 <= at < |s|
    ensures at >= 0 ==> s[at] == START
    ensures forall i :: at < i < |s| ==> s[i] != START
  {
    if s == [] then -1
    else if s[|s| - 1] == START then |s| - 1
    else LastStart(s[..|s| - 1])
  }

  /** The characters from the last start character on; all of them if there is none. */
  function FromLastStart(s: seq<byte>): seq<byte> {
    if LastStart(s) > 0 then s[LastStart(s)..] else s
  }

  /** One tick: the line offers `rx`, of which at most `Room` characters are read. */
  function Tick(l: Link, rx: seq<byte>, reload: nat): Link
    requires |l.live| <= MAX_LENGTH
  {
    var e := Expire(l);
    var held := if |e.live| == MAX_LENGTH then [] else e.live;
    var got := if |rx| <= Room(l) then rx else rx[..Room(l)];
    if got == [] then Link(held, e.timeOut) else Link(FromLastStart(held + got), reload)
  }

  /** A complete frame leaves the buffer whether or not it carries a message. */
  function Recv(l: Link): Link {
    if CompleteLength(l.live) >= MIN_LENGTH then l.(live := []) else l
  }

  /** A message is written to the line only if its frame fits the buffer. */
  predicate Fits(m: Msg) {
    2 * (|m.pdu| + 2) + 3 <= MAX_LENGTH
  }

  /** What transmission leaves in the buffer: the frame, or the raw bytes if the frame does not fit. */
  function Image(m: Msg): seq<byte> {
    if Fits(m) then Frame(m) else Payload(m)
  }

  function Send(l: Link, m: Msg): Link {
    l.(live := Overlay(l.live, Image(m)))
  }

  function Emitted(m: Msg): seq<seq<byte>> {
    if Fits(m) then [Frame(m)] else []
  }

  class AsciiObj {
    const timeBase: nat
    const buffer: array<byte>
    var bufferSize: int
    var timeOut: int
    /** Everything handed to the device for transmission, one entry a write. */
    var written: seq<seq<byte>>

    ghost predicate Valid()
      reads this
    {
      timeBase > 0 && buffer.Length == MAX_LENGTH && 0 <= bufferSize <= MAX_LENGTH && 0 <= timeOut
    }

    ghost function Value(): Link
      requires Valid()
      reads this, buffer
    {
      Link(buffer[..bufferSize], timeOut)
    }

    constructor (timeBase: nat)
      requires timeBase > 0
      ensures Valid() && fresh(buffer) && this.timeBase == timeBase
      ensures Value() == Link([], 0) && written == []
    {
      this.timeBase := timeBase;
      buffer := new byte[512];
      bufferSize := 0;
      timeOut := 0;
      written := [];
    }

    method CheckCompleteMsg(length: int) returns (end: int)
      requires Valid() && length == ToInt8(bufferSize)
      ensures end == CompleteLength(buffer[..bufferSize])
    {
      ghost var live := buffer[..bufferSize];
      end := -1;
      if MIN_LENGTH <= length {
        var loopi := MIN_LENGTH - 2;
        while loopi < length - 1 && end == -1
          invariant MIN_LENGTH - 2 <= loopi <= length
          invariant end == -1 && live[0] == START
                    ==> FindEnd(live, MIN_LENGTH - 2, length) == FindEnd(live, loopi, length)
          invariant end != -1 ==> live[0] == START && end == FindEnd(live, MIN_LENGTH - 2, length)
          invariant loopi == length ==> end != -1
          decreases length - loopi
        {
          if buffer[loopi] == END_1 && buffer[loopi + 1] == END_2 && buffer[0] == START {
            end := loopi + 2;
          }
          loopi := loopi + 1;
        }
      }
    }

    method SearchStart() returns (begin: int)
      requires Valid()
      ensures begin == LastStart(buffer[..bufferSize])
    {
      begin := -1;
      var loopi := bufferSize - 1;
      while 0 <= loopi && begin == -1
        invariant -1 <= loopi < bufferSize
        invariant begin == -1 ==> LastStart(buffer[..bufferSize]) == LastStart(buffer[..loopi + 1])
        invariant begin != -1 ==> begin == LastStart(buffer[..bufferSize])
        decreases loopi + 1
      {
        assert buffer[..loopi + 1][..loopi] == buffer[..loopi];
        if buffer[loopi] == START {
          begin := loopi;
        }
        loopi := loopi - 1;
      }
    }

    /** Moves the characters from `begin` on to the start of the buffer. */
    method ShiftDown(begin: nat)
      requires Valid() && begin <= bufferSize
      modifies this`bufferSize, buffer
      ensures Valid() && bufferSize == old(bufferSize) - begin
      ensures buffer[..bufferSize] == old(buffer[begin..bufferSize])
    {
      var loopi := begin;
      while loopi < bufferSize
        modifies buffer
        invariant begin <= loopi <= bufferSize
        invariant forall j :: 0 <= j < loopi - begin ==> buffer[j] == old(buffer[begin + j])
        invariant forall j :: loopi <= j < bufferSize ==> buffer[j] == old(buffer[j])
      {
        buffer[loopi - begin] := buffer[loopi];
        loopi := loopi + 1;
      }
      bufferSize := bufferSize - begin;
    }

    /** One tick; the device offers the characters `rx`. */
    method Task(rx: seq<byte>)
      requires Valid()
      modifies this`bufferSize, this`timeOut, buffer
      ensures Valid()
      ensures Value() == Tick(old(Value()), rx, 1000 / timeBase)
    {
      hide LastStart;
      if timeOut == 0 {
        bufferSize := 0;
      } else {
        timeOut := timeOut - 1;
      }
      assert Link(buffer[..bufferSize], timeOut) == Expire(old(Value()));
      var read := MAX_LENGTH - bufferSize;
      if read == 0 {
        bufferSize := 0;
        read := MAX_LENGTH;
      }
      ghost var held := buffer[..bufferSize];
      assert read == Room(old(Value()));
      if |rx| < read {
        read := |rx|;
      }
      ghost var got := rx[..read];
      assert got == if |rx| <= Room(old(Value())) then rx else rx[..Room(old(Value()))];
      DeviceRead(rx, read);
      if read > 0 {
        timeOut := 1000 / timeBase;
        bufferSize := bufferSize + read;
        assert buffer[..bufferSize] == held + got;
        var begin := SearchStart();
        if begin > 0 {
          ShiftDown(begin);
        }
      }
    }

    /** The device stores the characters read behind the ones held. */
    method DeviceRead(rx: seq<byte>, read: nat)
      requires Valid() && read <= |rx| && bufferSize + read <= MAX_LENGTH
      modifies buffer
      ensures buffer[..bufferSize + read] == old(buffer[..bufferSize]) + rx[..read]
    {
      for i := 0 to read
        invariant buffer[..bufferSize + i] == old(buffer[..bufferSize]) + rx[..i]
      {
        buffer[bufferSize + i] := rx[i];
        assert buffer[..bufferSize + i + 1] == buffer[..bufferSize + i] + [rx[i]];
      }
    }

    /** Reports the message received, if any: `size` is 0 if there is none, and then neither `id` nor
        `pdu` is written. The copy includes the check byte behind the PDU. */
    method RecvMsg(id0: byte, pdu: array<byte>) returns (id: byte, size: nat)
      requires Valid() && pdu != buffer && pdu.Length >= 61
      modifies this`bufferSize, buffer, pdu
      ensures Valid() && Value() == Recv(old(Value()))
      ensures match Receive(old(Value()).live)
              case None => size == 0 && id == id0 && pdu[..] == old(pdu[..])
              case Some(m) => size == |m.pdu| && id == m.id &&
                              pdu[..] == Overlay(old(pdu[..]), m.pdu + [L.CheckByte([m.id] + m.pdu)])
    {
      hide Receive, Unhex, L.Checks, L.CheckByte, CompleteLength;
      id, size := id0, 0;
      ghost var live := buffer[..bufferSize];
      var lenAscii := CheckCompleteMsg(ToInt8(bufferSize));
      if MIN_LENGTH <= lenAscii {
        bufferSize := 0;
        assert live == old(Value()).live;
        RecvLength(live);
        DecodedRange(buffer[..], live, lenAscii);
        NotReported(live);
        var lenBin := Ascii2Bin(buffer, lenAscii - 2);
        if 0 < lenBin {
          ghost var bs := buffer[..lenBin];
          assert Unhex(live[1..lenAscii - 2]) == Some(bs);
          var ok := L.CheckLRC(buffer, lenBin);
          if ok {
            ReportedBytes(live, bs);
            lenBin := lenBin - 1;
            CopyOut(pdu, lenBin);
            id := buffer[0];
            size := lenBin - 1;
          }
        }
      } else {
        NotReported(live);
      }
    }

    method CopyOut(pdu: array<byte>, len: nat)
      requires Valid() && pdu != buffer && len < MAX_LENGTH && len <= pdu.Length
      modifies pdu
      ensures pdu[..] == Overlay(old(pdu[..]), buffer[1..len + 1])
    {
      var loopi := 0;
      while loopi < len
        invariant 0 <= loopi <= len
        invariant forall j :: 0 <= j < loopi ==> pdu[j] == buffer[j + 1]
        invariant forall j :: loopi <= j < pdu.Length ==> pdu[j] == old(pdu[j])
      {
        pdu[loopi] := buffer[loopi + 1];
        loopi := loopi + 1;
      }
    }

    /** Builds the frame of a message in the buffer and writes it if it fits. */
    method SendMsg(id: byte, pdu: array<byte>, size: nat)
      requires Valid() && pdu != buffer && size <= pdu.Length
      requires size + 2 <= MAX_LENGTH
      modifies this`written, buffer
      ensures Valid()
      ensures var m := Msg(id, old(pdu[..size]));
              Value() == Send(old(Value()), m) && written == old(written) + Emitted(m)
    {
      ghost var m := Msg(id, pdu[..size]);
      CopyIn(id, pdu, size);
      var lrc := L.CalcLRC(buffer, size + 1);
      buffer[size + 1] := lrc;
      PayloadPlaced(buffer[..], old(buffer[..]), m);
      if MAX_LENGTH >= (size + 2) * 2 + 3 {
        var lenAscii := Convert(size + 2, m);
        written := written + [buffer[..lenAscii]];
      }
      OverlayOfBuffer(old(buffer[..]), buffer[..], Image(m), bufferSize);
    }

    /** Turns the payload at the start of the buffer into the frame. */
    method Convert(lenBin: nat, ghost m: Msg) returns (lenAscii: nat)
      requires Valid() && Fits(m) && lenBin == |Payload(m)| && buffer[..lenBin] == Payload(m)
      modifies buffer
      ensures lenAscii == |Frame(m)| <= MAX_LENGTH
      ensures buffer[..] == Frame(m) + old(buffer[lenAscii..])
    {
      Bin2Ascii(buffer, lenBin);
      buffer[0] := START;
      lenAscii := lenBin * 2 + 1;
      buffer[lenAscii] := END_1;
      lenAscii := lenAscii + 1;
      buffer[lenAscii] := END_2;
      lenAscii := lenAscii + 1;
      assert buffer[..][1..lenBin * 2 + 1] == Hex(Payload(m));
      FrameFromParts(buffer[..], lenAscii, m);
      assert buffer[..] == buffer[..][..lenAscii] + buffer[lenAscii..];
    }

    method CopyIn(id: byte, pdu: array<byte>, size: nat)
      requires Valid() && pdu != buffer && size <= pdu.Length && size + 1 <= MAX_LENGTH
      modifies buffer
      ensures buffer[..size + 1] == [id] + pdu[..size]
      ensures forall j :: size < j < MAX_LENGTH ==> buffer[j] == old(buffer[j])
    {
      buffer[0] := id;
      var loopi := 0;
      while loopi < size
        invariant 0 <= loopi <= size
        invariant buffer[0] == id
        invariant forall j :: 0 <= j < loopi ==> buffer[j + 1] == pdu[j]
        invariant forall j :: size < j < MAX_LENGTH ==> buffer[j] == old(buffer[j])
      {
        buffer[loopi + 1] := pdu[loopi];
        loopi := loopi + 1;
      }
    }
  }

  lemma PayloadPlaced(after: seq<byte>, before: seq<byte>, m: Msg)
    requires |after| == |before| >= |m.pdu| + 2
    requires after[..|m.pdu| + 1] == [m.id] + m.pdu
    requires after[|m.pdu| + 1] == L.CheckByte(after[..|m.pdu| + 1])
    requires forall j :: |m.pdu| + 1 < j < |after| ==> after[j] == before[j]
    ensures after == Payload(m) + before[|Payload(m)|..]
    ensures after[..|Payload(m)|] == Payload(m)
  {
    assert after[..|m.pdu| + 2] == after[..|m.pdu| + 1] + [after[|m.pdu| + 1]];
  }

  lemma OverlayOfBuffer(before: seq<byte>, after: seq<byte>, image: seq<byte>, n: nat)
    requires |before| == |after| && |image| <= |after| && n <= |after|
    requires after == image + before[|image|..]
    ensures after[..n] == Overlay(before[..n], image)
  {
  }

  /** A complete frame has room for id, one byte of PDU and check byte; its reading end is odd
      exactly when its characters pair up. */
  lemma RecvLength(live: seq<byte>)
    requires CompleteLength(live) >= MIN_LENGTH
    ensures CompleteLength(live) <= ToInt8(|live|) <= |live|
    ensures var end := CompleteLength(live); live[end - 2] == END_1 && live[0] == START
  {
    FindEndFound(live, MIN_LENGTH - 2, ToInt8(|live|));
  }

  /** Converting one character past an odd number of them fails on the end character. */
  lemma DecodedRange(buf: seq<byte>, live: seq<byte>, end: int)
    requires live <= buf
    requires MIN_LENGTH <= end <= |live| && live[end - 2] == END_1
    requires end < |buf|
    ensures Unhex(buf[1..2 * ((end - 2) / 2) + 1]) == Unhex(live[1..end - 2])
  {
    var len := end - 2;
    if len % 2 == 1 {
      assert 2 * (len / 2) + 1 == len;
      assert buf[1..len] == live[1..len];
    } else {
      assert 2 * (len / 2) + 1 == len + 1;
      var cs := buf[1..len + 1];
      assert cs[len - 1] == END_1 && !IsHex(END_1);
    }
  }

  /** Nothing is reported for an incomplete frame, nor for one whose bytes do not check. */
  lemma NotReported(live: seq<byte>)
    ensures CompleteLength(live) < MIN_LENGTH ==> Receive(live) == None
    ensures CompleteLength(live) >= MIN_LENGTH ==>
              match Unhex(live[1..CompleteLength(live) - 2])
              case None => Receive(live) == None
              case Some(bs) => 0 < |bs| <= CompleteLength(live) && (!L.Checks(bs) ==> Receive(live) == None)
  {
    hide L.Checks, PairAt, AllHex, CompleteLength;
  }

  lemma ReportedBytes(live: seq<byte>, bs: seq<byte>)
    requires CompleteLength(live) >= MIN_LENGTH && Unhex(live[1..CompleteLength(live) - 2]) == Some(bs) && L.Checks(bs)
    ensures 2 <= |bs| <= 62 && Receive(live) == Some(Msg(bs[0], bs[1..|bs| - 1]))
    ensures var m := Msg(bs[0], bs[1..|bs| - 1]); m.pdu + [L.CheckByte([m.id] + m.pdu)] == bs[1..]
  {
    hide Frame, Payload, PairAt, AllHex, CompleteLength, L.CheckByte, L.Sum;
    ReceivedWasSent(live);
    FrameLength(Receive(live).value);
    assert [bs[0]] + bs[1..|bs| - 1] == bs[..|bs| - 1];
  }
}
