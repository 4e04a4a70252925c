/** Frames of more than 127 characters: never reported, however they come in, but left in the buffer,
    where the next request of a master is written over them. */
module Oversized {
  import opened Bytes
  import opened Modbus
  import opened AsciiFrame
  import opened AsciiLink
  import opened AsciiStream
  import M = Master

  /** The request of a master. */
  function RequestOf(m: M.Master): Msg
    requires M.Sound(m)
  {
    Msg(m.slaveId, M.Request(m))
  }

  /** The link after the request of `m` was written over what it holds. */
  function Overwritten(l: Link, m: M.Master): (l': Link)
    requires M.Sound(m)
    ensures |l'.live| == |l.live|
  {
    Send(l, RequestOf(m))
  }

  /** A message whose frame is sent but too long to be reported. */
  predicate TooLong(m: Msg) {
    |m.pdu| > 60 && Fits(m)
  }

  /** No contiguous part of such a frame is complete. */
  lemma PartIncomplete(m: Msg, a: nat, b: nat)
    requires |m.pdu| > 60 && a <= b <= |Frame(m)|
    ensures CompleteLength(Frame(m)[a..b]) == -1
  {
    hide Frame, FindEnd;
    FrameShape(m);
    var part := Frame(m)[a..b];
    FindEndFound(part, MIN_LENGTH - 2, ToInt8(|part|));
  }

  lemma PartFromStart(m: Msg, a: nat, b: nat)
    requires a <= b <= |Frame(m)|
    ensures FromLastStart(Frame(m)[a..b]) == Frame(m)[a..b]
  {
    hide Frame;
    FrameShape(m);
    var part := Frame(m)[a..b];
    forall i | 0 < i < |part|
      ensures part[i] != START
    {
      assert part[i] == Frame(m)[a + i];
    }
  }

  lemma NothingReported(live: seq<byte>)
    requires CompleteLength(live) == -1
    ensures Receive(live) == None && forall t: nat :: Recv(Link(live, t)) == Link(live, t)
  {
  }

  /** One tick inside such a frame, with the characters up to `b` come in and those from `a` on held:
      nothing is reported, and a part of the frame is held. */
  lemma TickInPart(m: Msg, l: Link, a: nat, b: nat, rx: seq<byte>, reload: nat)
    requires TooLong(m) && a <= b <= |Frame(m)| && l.live == Frame(m)[a..b]
    requires b + |rx| <= |Frame(m)| && rx == Frame(m)[b..b + |rx|]
    ensures |Frame(m)| <= MAX_LENGTH
    ensures var l' := Tick(l, rx, reload);
            && Receive(l'.live) == None && Recv(l') == l'
            && l'.live == Frame(m)[if l.timeOut > 0 then a else b..b + |rx|]
            && l'.timeOut == if rx != [] then reload else if l.timeOut > 0 then l.timeOut - 1 else 0
  {
    hide Frame, LastStart, FromLastStart, CompleteLength, Receive;
    FrameShape(m);
    var a' := if l.timeOut > 0 then a else b;
    assert Expire(l).live == Frame(m)[a'..b];
    assert Frame(m)[a'..b] + rx == Frame(m)[a'..b + |rx|];
    PartFromStart(m, a', b + |rx|);
    PartIncomplete(m, a', b + |rx|);
    NothingReported(Frame(m)[a'..b + |rx|]);
  }

  /** A part of the frame of `m` that ends after `n` characters. */
  ghost predicate PartOf(m: Msg, live: seq<byte>, n: nat) {
    exists a: nat :: a <= n <= |Frame(m)| && live == Frame(m)[a..n]
  }

  /** The last of the chunks of a frame. */
  lemma LastChunk(m: Msg, cs: seq<seq<byte>>)
    requires cs != [] && Flatten(cs) <= Frame(m)
    ensures var n, rx := |Flatten(cs[..|cs| - 1])|, cs[|cs| - 1];
            && Flatten(cs[..|cs| - 1]) <= Frame(m) && n + |rx| == |Flatten(cs)| <= |Frame(m)|
            && rx == Frame(m)[n..n + |rx|]
  {
    hide Frame, Flatten;
    FlattenLast(cs);
    PrefixSplit(Flatten(cs), Flatten(cs[..|cs| - 1]), cs[|cs| - 1], Frame(m));
  }

  lemma FlattenLast(cs: seq<seq<byte>>)
    ensures Flatten(cs) == if cs == [] then [] else Flatten(cs[..|cs| - 1]) + cs[|cs| - 1]
  {
  }

  lemma PrefixSplit(whole: seq<byte>, a: seq<byte>, b: seq<byte>, f: seq<byte>)
    requires whole == a + b && whole <= f
    ensures a <= f && |whole| == |a| + |b| <= |f| && b == f[|a|..|a| + |b|]
  {
    assert f[..|whole|] == whole;
  }

  lemma {:induction false} HoldsPart(l: Link, m: Msg, cs: seq<seq<byte>>, reload: nat)
    requires l.live == [] && TooLong(m) && Flatten(cs) <= Frame(m)
    ensures PartOf(m, After(l, cs, reload).live, |Flatten(cs)|)
    ensures cs != [] ==> Reported(l, cs, reload) == None
  {
    hide Frame, Tick, Recv, Receive, TooLong, Flatten;
    FlattenLast(cs);
    if cs == [] {
      assert l.live == Frame(m)[0..0];
    } else {
      var before, rx := cs[..|cs| - 1], cs[|cs| - 1];
      LastChunk(m, cs);
      HoldsPart(l, m, before, reload);
      var a: nat :| a <= |Flatten(before)| && After(l, before, reload).live == Frame(m)[a..|Flatten(before)|];
      TickInPart(m, After(l, before, reload), a, |Flatten(before)|, rx, reload);
      var a' := if After(l, before, reload).timeOut > 0 then a else |Flatten(before)|;
      assert After(l, cs, reload).live == Frame(m)[a'..|Flatten(cs)|];
    }
  }

  /** MAIN: a frame of more than 127 characters is never reported, not even in part, however it is split
      and whatever pauses there are. */
  lemma NeverReported(l: Link, m: Msg, cs: seq<seq<byte>>, reload: nat)
    requires l.live == [] && TooLong(m) && Flatten(cs) == Frame(m)
    ensures forall k :: 0 < k <= |cs| ==> Reported(l, cs[..k], reload) == None
  {
    hide Frame, Reported, TooLong;
    forall k | 0 < k <= |cs|
      ensures Reported(l, cs[..k], reload) == None
    {
      FlattenPrefix(cs, k);
      HoldsPart(l, m, cs[..k], reload);
    }
  }

  /** Without a pause of `reload` ticks, all of it is held. */
  lemma {:induction false} AllHeld(l: Link, m: Msg, cs: seq<seq<byte>>, reload: nat)
    requires l.live == [] && TooLong(m) && Flatten(cs) <= Frame(m) && cs != [] && cs[0] != []
    requires forall i :: 0 <= i < |cs| ==> Quiet(cs[..i]) < reload
    ensures After(l, cs, reload) == Link(Flatten(cs), reload - Quiet(cs))
  {
    hide Frame, Tick, Recv, Receive, TooLong, Flatten;
    var n := |cs| - 1;
    var before, rx := cs[..n], cs[n];
    FlattenLast(cs);
    FlattenLast([]);
    LastChunk(m, cs);
    if n == 0 {
      assert before == [] && Frame(m)[0..0] == [] == Flatten(before);
      TickInPart(m, l, 0, 0, rx, reload);
    } else {
      assert forall i :: 0 <= i < n ==> before[..i] == cs[..i];
      AllHeld(l, m, before, reload);
      assert Quiet(cs[..n]) < reload;
      assert Flatten(before) == Frame(m)[0..|Flatten(before)|];
      TickInPart(m, After(l, before, reload), 0, |Flatten(before)|, rx, reload);
    }
    assert Frame(m)[0..|Flatten(cs)|] == Flatten(cs);
  }

  /** The length of up to 511 characters read as an int8_t. */
  lemma ShortLength(n: nat)
    requires n < 512
    ensures ToInt8(n) == if n < 128 then n else if n < 384 then n - 256 else n - 512
  {
  }

  /** MAIN: a request written while such a reply is held is taken for a message from the line exactly if
      it is not longer than the length of the reply's frame read as an int8_t. */
  lemma OwnRequestHeardIff(l: Link, request: Msg, reply: Msg)
    requires l.live == Frame(reply) && TooLong(reply) && 1 <= |request.pdu| <= 60
    ensures Receive(Send(l, request).live) == Some(request) <==> 2 * |request.pdu| + 7 <= ToInt8(2 * |reply.pdu| + 7)
  {
    hide Frame, Receive, Send, TooLong;
    FrameLength(request);
    FrameLength(reply);
    EchoIff(l, request);
  }

  /** A read or read-write that hears its own request is not completed but marked as answered wrongly. */
  lemma OwnRequestJudged(m: M.Master, held: seq<byte>)
    requires M.Sound(m) && M.IsRead(m.cmd) && m.quantityR >= 30 && |held| == BUFFER_SIZE
    requires M.Request(m) <= held && |M.Request(m)| <= 60
    ensures M.Response(m, m.slaveId, held, |M.Request(m)|) == m.(exc := E_PDU_RECEIVED_WRONG)
  {
    hide M.Received, M.Request;
    RequestHead(m);
    assert held[0] == M.Request(m)[0];
  }

  lemma RequestHead(m: M.Master)
    requires M.Sound(m) && M.IsRead(m.cmd)
    ensures M.Request(m) != [] && M.Request(m)[0] == m.cmd
    ensures |M.Request(m)| == if m.cmd == READ_WRITE_MULTIPLE_REGISTERS then 10 + 2 * m.quantityW else 5
  {
  }

  /** For a read of 66 to 93 registers, and for a read-write of as many that are also at least 68 more than
      the registers written, the length of the reply's frame as an int8_t is not less than the request's. */
  predicate HearsItself(m: M.Master) {
    && m.quantityR <= 93
    && m.quantityR >= if m.cmd == READ_WRITE_MULTIPLE_REGISTERS then m.quantityW + 68 else 66
  }

  /** MAIN: when the next try of a read of 30 to 125 registers is sent while the reply to the try before
      is held, the master hears its own request exactly if 66 to 93 registers are read, and for a
      read-write if those are at least 68 more than the registers written. */
  lemma RetryHeardIff(m: M.Master, l: Link, reply: Msg)
    requires M.Sound(m) && M.IsRead(m.cmd) && 30 <= m.quantityR <= 125 && |M.Request(m)| <= 60
    requires |reply.pdu| == 2 + 2 * m.quantityR && l.live == Frame(reply)
    ensures Receive(Overwritten(l, m).live) == Some(RequestOf(m)) <==> HearsItself(m)
  {
    hide Frame, Receive, Send, M.Request, ToInt8;
    RequestHead(m);
    ShortLength(2 * |reply.pdu| + 7);
    OwnRequestHeardIff(l, RequestOf(m), reply);
  }
}
