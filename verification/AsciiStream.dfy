/** Whole runs of the link layer: what its buffer keeps, and reassembly of frames that arrive in
    pieces. */
module AsciiStream {
  import opened Bytes
  import opened AsciiFrame
  import opened AsciiLink

  /** The calls the layer above makes. */
  datatype Event = Elapse(rx: seq<byte>) | Take | Transmit(m: Msg)

  function Step(l: Link, e: Event, reload: nat): (l': Link)
    requires |l.live| <= MAX_LENGTH
    ensures |l'.live| <= MAX_LENGTH
  {
    match e
    case Elapse(rx) => Tick(l, rx, reload)
    case Take => Recv(l)
    case Transmit(m) => Send(l, m)
  }

  function Run(l: Link, es: seq<Event>, reload: nat): (l': Link)
    requires |l.live| <= MAX_LENGTH
    ensures |l'.live| <= MAX_LENGTH
  {
    if es == [] then l else Step(Run(l, es[..|es| - 1], reload), es[|es| - 1], reload)
  }

  /** The characters held fit the buffer and contain a start character at most at the front. */
  predicate Synchronised(l: Link) {
    |l.live| <= MAX_LENGTH && forall i :: 0 < i < |l.live| ==> l.live[i] != START
  }

  /** `live` is `s` from its last start character on, or all of it if it has none. */
  ghost predicate FromLastColon(s: seq<byte>, live: seq<byte>) {
    if 0x3A in s then live != [] && live[0] == 0x3A && 0x3A !in live[1..] && |live| <= |s| && live == s[|s| - |live|..]
    else live == s
  }

  /** What a tick does: with no time left, or with all 512 cells in use, the characters held are dropped;
      then as many are read as there is room for, and what comes before the last colon is dropped. */
  lemma TickMeaning(l: Link, rx: seq<byte>, reload: nat)
    requires |l.live| <= 512
    ensures var l', kept := Tick(l, rx, reload), if l.timeOut == 0 || |l.live| == 512 then [] else l.live;
            var got := if |rx| <= 512 - |kept| then rx else rx[..512 - |kept|];
            && (rx == [] ==> l' == Link(kept, if l.timeOut > 0 then l.timeOut - 1 else 0))
            && (rx != [] ==> l'.timeOut == reload && FromLastColon(kept + got, l'.live))
  {
    hide FromLastStart, FromLastColon;
    var kept := if l.timeOut == 0 || |l.live| == 512 then [] else l.live;
    var got := if |rx| <= 512 - |kept| then rx else rx[..512 - |kept|];
    LastColon(kept + got);
  }

  lemma LastColon(s: seq<byte>)
    ensures FromLastColon(s, FromLastStart(s))
  {
    var at := LastStart(s);
    if at > 0 {
      assert s[at..][0] == START && forall i :: 0 <= i < |s[at..][1..]| ==> s[at..][1..][i] == s[at + 1 + i];
    } else if at == 0 {
      assert forall i :: 0 <= i < |s[1..]| ==> s[1..][i] == s[1 + i];
    }
  }

  lemma TickSynchronises(l: Link, rx: seq<byte>, reload: nat)
    requires Synchronised(l)
    ensures Synchronised(Tick(l, rx, reload))
  {
  }

  /** Transmission keeps the buffer synchronised exactly if the frame fits or the raw bytes left over
      the characters held have no start character behind the first position. */
  lemma SendSynchronisedIff(l: Link, m: Msg)
    requires Synchronised(l)
    ensures Synchronised(Send(l, m)) <==>
            Fits(m) || forall i :: 0 < i < |Payload(m)| && i < |l.live| ==> Payload(m)[i] != START
  {
    var live' := Send(l, m).live;
    if Fits(m) {
      FrameShape(m);
      forall i | 0 < i < |live'|
        ensures live'[i] != START
      {
        assert live'[i] == if i < |Frame(m)| then Frame(m)[i] else l.live[i];
      }
    } else {
      assert forall i :: 0 <= i < |live'| ==> live'[i] == if i < |Payload(m)| then Payload(m)[i] else l.live[i];
    }
  }

  /** A PDU of 253 bytes can leave a start character in the middle of the buffer. */
  lemma OversizedSendDesynchronises()
    ensures exists l: Link, m: Msg :: Synchronised(l) && |m.pdu| == 253 && !Synchronised(Send(l, m))
  {
    var l := Link(seq(2, i => 0), 1);
    var m := Msg(1, seq(253, i => START));
    assert Payload(m)[1] == START;
    SendSynchronisedIff(l, m);
    assert Synchronised(l) && |m.pdu| == 253 && !Synchronised(Send(l, m));
  }

  /** MAIN: over every mix of ticks, receptions and transmissions of messages that fit, the buffer
      stays within its size and synchronised. */
  lemma {:induction false} RunSynchronised(l: Link, es: seq<Event>, reload: nat)
    requires Synchronised(l)
    requires forall i :: 0 <= i < |es| && es[i].Transmit? ==> Fits(es[i].m)
    ensures Synchronised(Run(l, es, reload))
  {
    if es != [] {
      var before, e := Run(l, es[..|es| - 1], reload), es[|es| - 1];
      RunSynchronised(l, es[..|es| - 1], reload);
      match e
      case Elapse(rx) => TickSynchronises(before, rx, reload);
      case Take =>
      case Transmit(m) => SendSynchronisedIff(before, m);
    }
  }

  /** A message just transmitted is reported as if received exactly when characters numbering at
      least its frame (read as an int8_t) were already held. */
  lemma EchoIff(l: Link, m: Msg)
    requires 1 <= |m.pdu| <= 60
    ensures Receive(Send(l, m).live) == Some(m) <==> |Frame(m)| <= ToInt8(|l.live|)
  {
    hide Frame, Receive;
    FrameShape(m);
    OverlayStarts(l.live, Frame(m));
    ReceivesIff(Send(l, m).live, m);
  }

  lemma OverlayStarts(dst: seq<byte>, src: seq<byte>)
    ensures |Overlay(dst, src)| == |dst|
    ensures |src| <= |dst| ==> src <= Overlay(dst, src)
  {
  }

  /** All characters of a list of chunks. */
  function Flatten(cs: seq<seq<byte>>): seq<byte> {
    if cs == [] then [] else Flatten(cs[..|cs| - 1]) + cs[|cs| - 1]
  }

  /** Number of ticks without a character at the end of a list of chunks. */
  function Quiet(cs: seq<seq<byte>>): nat {
    if cs == [] || cs[|cs| - 1] != [] then 0 else 1 + Quiet(cs[..|cs| - 1])
  }

  /** The state after a tick and a reception for each chunk. */
  function After(l: Link, cs: seq<seq<byte>>, reload: nat): (l': Link)
    requires |l.live| <= MAX_LENGTH
    ensures |l'.live| <= MAX_LENGTH
  {
    if cs == [] then l else Recv(Tick(After(l, cs[..|cs| - 1], reload), cs[|cs| - 1], reload))
  }

  /** What the reception after the last chunk reports. */
  function Reported(l: Link, cs: seq<seq<byte>>, reload: nat): Option<Msg>
    requires |l.live| <= MAX_LENGTH && cs != []
  {
    Receive(Tick(After(l, cs[..|cs| - 1], reload), cs[|cs| - 1], reload).live)
  }

  /** The frame of `m`, with a PDU of 1 to 60 bytes, arrives in the chunks `cs`: the first and the last
      chunk are not empty, and never do `reload` ticks pass without a character. */
  ghost predicate Arrives(m: Msg, cs: seq<seq<byte>>, reload: nat) {
    && 1 <= |m.pdu| <= 60
    && cs != [] && cs[0] != [] && cs[|cs| - 1] != []
    && Flatten(cs) == Frame(m)
    && forall i :: 0 <= i <= |cs| ==> Quiet(cs[..i]) < reload
  }

  lemma {:induction false} FlattenPrefix(cs: seq<seq<byte>>, i: nat)
    requires i <= |cs|
    ensures Flatten(cs[..i]) <= Flatten(cs)
    ensures i < |cs| && cs[|cs| - 1] != [] ==> |Flatten(cs[..i])| < |Flatten(cs)|
  {
    if i < |cs| {
      FlattenPrefix(cs[..|cs| - 1], i);
      assert cs[..|cs| - 1][..i] == cs[..i];
    } else {
      assert cs[..i] == cs;
    }
  }

  lemma {:induction false} FlattenAppend(a: seq<seq<byte>>, b: seq<seq<byte>>)
    ensures Flatten(a + b) == Flatten(a) + Flatten(b)
  {
    if b == [] {
      assert a + b == a;
    } else {
      var n := |b| - 1;
      assert (a + b)[..|a + b| - 1] == a + b[..n];
      FlattenAppend(a, b[..n]);
      assert Flatten(a) + Flatten(b[..n]) + b[n] == Flatten(a) + (Flatten(b[..n]) + b[n]);
    }
  }

  /** The characters of a frame hold no start character but the first. */
  lemma StartOfPrefix(m: Msg, garbage: seq<byte>, p: seq<byte>)
    requires p <= Frame(m) && p != []
    ensures FromLastStart(garbage + p) == p
  {
    FrameShape(m);
    var s := garbage + p;
    assert s[|garbage|] == p[0] == Frame(m)[0];
    forall i | |garbage| < i < |s|
      ensures s[i] != START
    {
      assert s[i] == p[i - |garbage|] == Frame(m)[i - |garbage|];
    }
    assert LastStart(s) == |garbage|;
    assert s[|garbage|..] == p;
  }

  /** A proper prefix of a frame of at most 127 characters is not complete. */
  lemma PrefixIncomplete(m: Msg, p: seq<byte>)
    requires |m.pdu| <= 60 && p < Frame(m)
    ensures CompleteLength(p) == -1
  {
    FrameShape(m);
    var end := CompleteLength(p);
    if end != -1 {
      FindEndFound(p, MIN_LENGTH - 2, ToInt8(|p|));
    }
  }

  /** One tick inside a frame: the characters so far are held behind nothing else. */
  lemma TickInFrame(m: Msg, l: Link, held: seq<byte>, rx: seq<byte>, reload: nat)
    requires |m.pdu| <= 60 && |l.live| <= MAX_LENGTH && |rx| <= Room(l)
    requires held + rx <= Frame(m)
    requires (held == [] && rx != []) || (held == l.live && l.timeOut > 0)
    ensures Tick(l, rx, reload) == Link(held + rx, if rx == [] then l.timeOut - 1 else reload)
  {
    hide Frame, FromLastStart, LastStart;
    FrameLength(m);
    if rx != [] {
      var e := Expire(l);
      var before := if |e.live| == MAX_LENGTH then [] else e.live;
      if held == [] {
        StartOfPrefix(m, before, rx);
      } else {
        StartOfPrefix(m, [], held + rx);
        assert [] + (held + rx) == held + rx;
      }
      assert held == [] ==> held + rx == rx;
    } else {
      assert held + rx == held;
    }
  }

  /** While a frame arrives, the characters that came so far are held, whatever was held before. */
  lemma {:induction false} HeldWhileArriving(l: Link, m: Msg, cs: seq<seq<byte>>, i: nat, reload: nat)
    requires |l.live| <= MAX_LENGTH
    requires Arrives(m, cs, reload) && |cs[0]| <= Room(l)
    requires 0 < i < |cs|
    ensures Reported(l, cs[..i], reload) == None
    ensures After(l, cs[..i], reload) == Link(Flatten(cs[..i]), reload - Quiet(cs[..i]))
    ensures Flatten(cs[..i]) != []
  {
    FlattenPrefix(cs, i);
    assert cs[..i][..i - 1] == cs[..i - 1];
    var before, held, rx := After(l, cs[..i - 1], reload), Flatten(cs[..i - 1]), cs[i - 1];
    FrameShape(m);
    if i == 1 {
      assert held == [] && before == l;
    } else {
      HeldWhileArriving(l, m, cs, i - 1, reload);
      assert Quiet(cs[..i - 1]) < reload;
    }
    assert Flatten(cs[..i]) == held + rx;
    TickInFrame(m, before, held, rx, reload);
    PrefixIncomplete(m, held + rx);
  }

  /** MAIN: however the frame of a PDU of 1 to 60 bytes is split into chunks, and whatever was held
      before, every reception before the last chunk reports nothing and the last one reports
      exactly the message, leaving the buffer empty. */
  lemma Reassembly(l: Link, m: Msg, cs: seq<seq<byte>>, reload: nat)
    requires |l.live| <= MAX_LENGTH
    requires Arrives(m, cs, reload) && |cs[0]| <= Room(l)
    ensures forall i :: 0 < i < |cs| ==> Reported(l, cs[..i], reload) == None
    ensures Reported(l, cs, reload) == Some(m)
    ensures After(l, cs, reload) == Link([], reload)
  {
    hide Frame, Receive, Tick, Recv, Room;
    forall i | 0 < i < |cs|
      ensures Reported(l, cs[..i], reload) == None
    {
      HeldWhileArriving(l, m, cs, i, reload);
    }
    LastTick(l, m, cs, reload);
    WholeFrameTaken(m, reload);
  }

  lemma WholeFrameTaken(m: Msg, reload: nat)
    requires 1 <= |m.pdu| <= 60
    ensures Receive(Frame(m)) == Some(m) && Recv(Link(Frame(m), reload)) == Link([], reload)
  {
    FrameShape(m);
    SentIsReceived(Frame(m), m);
  }

  lemma LastTick(l: Link, m: Msg, cs: seq<seq<byte>>, reload: nat)
    requires |l.live| <= MAX_LENGTH
    requires Arrives(m, cs, reload) && |cs[0]| <= Room(l)
    ensures Tick(After(l, cs[..|cs| - 1], reload), cs[|cs| - 1], reload) == Link(Frame(m), reload)
    ensures |Frame(m)| == 2 * |m.pdu| + 7
  {
    var n := |cs| - 1;
    FrameShape(m);
    if n > 0 {
      HeldWhileArriving(l, m, cs, n, reload);
      assert Quiet(cs[..n]) < reload;
    }
    TickInFrame(m, After(l, cs[..n], reload), Flatten(cs[..n]), cs[n], reload);
  }

  /** All messages reported while the chunks come in. */
  function Delivered(l: Link, cs: seq<seq<byte>>, reload: nat): seq<Msg>
    requires |l.live| <= MAX_LENGTH
  {
    if cs == [] then []
    else
      Delivered(l, cs[..|cs| - 1], reload) +
      match Reported(l, cs, reload) case None => [] case Some(m) => [m]
  }

  function Concat(css: seq<seq<seq<byte>>>): seq<seq<byte>> {
    if css == [] then [] else Concat(css[..|css| - 1]) + css[|css| - 1]
  }

  lemma {:induction false} AfterSplit(l: Link, a: seq<seq<byte>>, b: seq<seq<byte>>, reload: nat)
    requires |l.live| <= MAX_LENGTH
    ensures After(l, a + b, reload) == After(After(l, a, reload), b, reload)
    ensures b != [] ==> Reported(l, a + b, reload) == Reported(After(l, a, reload), b, reload)
    ensures Delivered(l, a + b, reload) == Delivered(l, a, reload) + Delivered(After(l, a, reload), b, reload)
  {
    hide Tick, Recv, Receive;
    if b == [] {
      assert a + b == a;
    } else {
      assert (a + b)[..|a + b| - 1] == a + b[..|b| - 1];
      AfterSplit(l, a, b[..|b| - 1], reload);
    }
  }

  lemma {:induction false} SilentUntilLast(l: Link, cs: seq<seq<byte>>, i: nat, reload: nat)
    requires |l.live| <= MAX_LENGTH && i <= |cs|
    requires forall k :: 0 < k <= i ==> Reported(l, cs[..k], reload) == None
    ensures Delivered(l, cs[..i], reload) == []
  {
    if i > 0 {
      assert cs[..i][..i - 1] == cs[..i - 1];
      SilentUntilLast(l, cs, i - 1, reload);
    }
  }

  lemma OneFrameDelivered(l: Link, m: Msg, cs: seq<seq<byte>>, reload: nat)
    requires |l.live| <= MAX_LENGTH
    requires Arrives(m, cs, reload) && |cs[0]| <= Room(l)
    ensures Delivered(l, cs, reload) == [m] && After(l, cs, reload) == Link([], reload)
  {
    Reassembly(l, m, cs, reload);
    SilentUntilLast(l, cs, |cs| - 1, reload);
  }

  lemma FirstChunkFits(m: Msg, cs: seq<seq<byte>>, reload: nat, reload': nat)
    requires Arrives(m, cs, reload)
    ensures cs != [] && |cs[0]| <= Room(Link([], reload'))
  {
    FlattenPrefix(cs, 1);
    assert cs[..1][..0] == cs[..0] && Flatten(cs[..1]) == cs[0];
    FrameShape(m);
  }

  /** MAIN: a stream of frames, each arriving in chunks of its own, delivers exactly the messages
      sent, in order and each once. */
  lemma {:induction false} StreamDelivered(l: Link, ms: seq<Msg>, css: seq<seq<seq<byte>>>, reload: nat)
    requires |l.live| <= MAX_LENGTH && |css| == |ms|
    requires forall i :: 0 <= i < |ms| ==> Arrives(ms[i], css[i], reload)
    requires css != [] ==> css[0] != [] && |css[0][0]| <= Room(l)
    ensures Delivered(l, Concat(css), reload) == ms
    ensures After(l, Concat(css), reload) == if css == [] then l else Link([], reload)
  {
    hide Arrives, Room, Reported, After, Delivered;
    if css == [] {
      NothingDelivered(l, reload);
    } else {
      var n := |css| - 1;
      var before := After(l, Concat(css[..n]), reload);
      StreamDelivered(l, ms[..n], css[..n], reload);
      FirstChunkFits(ms[n], css[n], reload, reload);
      OneFrameDelivered(before, ms[n], css[n], reload);
      AfterSplit(l, Concat(css[..n]), css[n], reload);
      assert ms == ms[..n] + [ms[n]];
    }
  }

  lemma NothingDelivered(l: Link, reload: nat)
    requires |l.live| <= MAX_LENGTH
    ensures Delivered(l, [], reload) == [] && After(l, [], reload) == l
  {
  }
}
