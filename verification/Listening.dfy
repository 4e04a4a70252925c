/** A client's polls of a link, until a message is reported: what a link hears of a stream of frames that
    are too long to be reported, and of a frame that is not. */
module Listening {
  import opened Bytes
  import opened AsciiFrame
  import opened AsciiLink
  import opened AsciiStream
  import opened Oversized

  /** The link after the polls, the message reported if any, and the polls not made any more. */
  datatype Heard = Heard(link: Link, msg: Option<Msg>, rest: seq<seq<byte>>)

  function Listen(l: Link, polls: seq<seq<byte>>, reload: nat): (h: Heard)
    requires |l.live| <= MAX_LENGTH
    ensures |h.link.live| <= MAX_LENGTH && |h.rest| <= |polls| && (h.msg == None ==> h.rest == [])
    decreases |polls|
  {
    if polls == [] then Heard(l, None, [])
    else
      var l1 := Tick(l, polls[0], reload);
      if Receive(l1.live).Some? then Heard(Recv(l1), Receive(l1.live), polls[1..])
      else Listen(Recv(l1), polls[1..], reload)
  }

  /** The polls made until something is reported. */
  function Made(l: Link, polls: seq<seq<byte>>, reload: nat): (made: seq<seq<byte>>)
    requires |l.live| <= MAX_LENGTH
    ensures made + Listen(l, polls, reload).rest == polls
    decreases |polls|
  {
    if polls == [] then []
    else
      var l1 := Tick(l, polls[0], reload);
      [polls[0]] + if Receive(l1.live).Some? then [] else Made(Recv(l1), polls[1..], reload)
  }

  lemma FirstPollMade(l: Link, polls: seq<seq<byte>>, reload: nat)
    requires |l.live| <= MAX_LENGTH && polls != []
    ensures var l1 := Tick(l, polls[0], reload);
            && |Recv(l1).live| <= MAX_LENGTH
            && if Receive(l1.live).Some? || |polls| == 1 then
                 && Listen(l, polls, reload) == Heard(Recv(l1), Receive(l1.live), polls[1..])
                 && Made(l, polls, reload) == [polls[0]]
               else
                 && Listen(l, polls, reload) == Listen(Recv(l1), polls[1..], reload)
                 && Made(l, polls, reload) == [polls[0]] + Made(Recv(l1), polls[1..], reload)
  {
    hide Tick, Recv, Receive;
    PollBound(l, polls[0], reload);
    assert |polls| == 1 ==> polls[1..] == [];
  }

  /** A message that is heard has at most 60 bytes. */
  lemma {:induction false} HeardShort(l: Link, polls: seq<seq<byte>>, reload: nat)
    requires |l.live| <= MAX_LENGTH
    ensures var msg := Listen(l, polls, reload).msg; msg.Some? ==> |msg.value.pdu| <= 60
    decreases |polls|
  {
    hide Tick, Recv, Receive, Frame;
    if polls != [] {
      var l1 := Tick(l, polls[0], reload);
      if Receive(l1.live).Some? {
        ReceivedWasSent(l1.live);
        FrameLength(Receive(l1.live).value);
      } else {
        PollBound(l, polls[0], reload);
        HeardShort(Recv(l1), polls[1..], reload);
      }
    }
  }

  lemma PollBound(l: Link, rx: seq<byte>, reload: nat)
    requires |l.live| <= MAX_LENGTH
    ensures |Recv(Tick(l, rx, reload)).live| <= MAX_LENGTH
  {
    hide LastStart, CompleteLength;
  }

  /** Chunks of which only the last can be reported. */
  lemma {:induction false} ListenToLast(l: Link, cs: seq<seq<byte>>, reload: nat)
    requires |l.live| <= MAX_LENGTH && cs != []
    requires forall k :: 0 < k < |cs| ==> Reported(l, cs[..k], reload) == None
    ensures Listen(l, cs, reload) == Heard(After(l, cs, reload), Reported(l, cs, reload), [])
    decreases |cs|
  {
    hide Tick, Recv, Receive, Reported, After;
    var first, later := [cs[0]], cs[1..];
    assert cs == first + later && cs[..1] == first;
    OneChunk(l, cs[0], reload);
    AfterSplit(l, first, later, reload);
    if later != [] {
      forall k | 0 < k < |later|
        ensures Reported(After(l, first, reload), later[..k], reload) == None
      {
        assert cs[..k + 1] == first + later[..k];
        AfterSplit(l, first, later[..k], reload);
      }
      ListenToLast(After(l, first, reload), later, reload);
    } else {
      assert cs == first;
    }
  }

  lemma OneChunk(l: Link, rx: seq<byte>, reload: nat)
    requires |l.live| <= MAX_LENGTH
    ensures After(l, [rx], reload) == Recv(Tick(l, rx, reload))
    ensures Reported(l, [rx], reload) == Receive(Tick(l, rx, reload).live)
  {
    assert [rx][..0] == [];
  }

  /** No poll brings more than the link asks for. */
  predicate Readable(l: Link, polls: seq<seq<byte>>, reload: nat)
    requires |l.live| <= MAX_LENGTH
    decreases |polls|
  {
    polls == [] || (|polls[0]| <= Room(l) && Readable(Recv(Tick(l, polls[0], reload)), polls[1..], reload))
  }

  /** The frames of messages, one behind the other. */
  function Frames(ms: seq<Msg>): seq<byte> {
    if ms == [] then [] else Frame(ms[0]) + Frames(ms[1..])
  }

  predicate AllTooLong(ms: seq<Msg>) {
    forall i :: 0 <= i < |ms| ==> TooLong(ms[i])
  }

  /** Some characters of a stream of frames end inside one of them, or at its end. */
  lemma {:induction false} EndsInFrame(rx: seq<byte>, ms: seq<Msg>) returns (j: nat, b: nat)
    requires rx != [] && rx <= Frames(ms)
    ensures j < |ms| && 0 < b <= |Frame(ms[j])|
    ensures rx == Frames(ms[..j]) + Frame(ms[j])[..b] && Frames(ms)[|rx|..] == Frame(ms[j])[b..] + Frames(ms[j + 1..])
    decreases |ms|
  {
    hide Frame;
    var f := Frame(ms[0]);
    FrameLength(ms[0]);
    if |rx| <= |f| {
      j, b := 0, |rx|;
      assert rx == f[..b] && Frames(ms)[b..] == f[b..] + Frames(ms[1..]);
      assert ms[..0] == [];
    } else {
      var rx1 := rx[|f|..];
      assert rx == f + rx1;
      assert rx1 <= Frames(ms[1..]) && Frames(ms)[|rx|..] == Frames(ms[1..])[|rx1|..];
      var i: nat;
      i, b := EndsInFrame(rx1, ms[1..]);
      j := i + 1;
      assert ms[1..][..i] == ms[1..j] && ms[..j][1..] == ms[1..j] && ms[1..][i + 1..] == ms[j + 1..];
    }
  }

  // Single polls.

  /** A poll that brings nothing to a link without a complete frame. */
  lemma SilentPoll(l: Link, reload: nat)
    requires |l.live| < MAX_LENGTH && CompleteLength(l.live) == -1
    ensures var l' := Tick(l, [], reload);
            && Receive(l'.live) == None && Recv(l') == l'
            && l' == if l.timeOut > 0 then Link(l.live, l.timeOut - 1) else Link([], 0)
  {
    hide CompleteLength;
    EmptyIncomplete();
    NothingReported(l.live);
    NothingReported([]);
  }

  lemma EmptyIncomplete()
    ensures CompleteLength([]) == -1
  {
  }

  /** A poll that ends inside a new frame: all before it is dropped. */
  lemma FrameBegins(l: Link, x: seq<byte>, m: Msg, b: nat, reload: nat)
    requires |l.live| <= MAX_LENGTH && TooLong(m) && 0 < b <= |Frame(m)| && |x| + b <= Room(l)
    ensures var l' := Tick(l, x + Frame(m)[..b], reload);
            l' == Link(Frame(m)[..b], reload) && Receive(l'.live) == None && Recv(l') == l'
  {
    hide Frame, FromLastStart, LastStart, CompleteLength, Receive, TooLong;
    var e := Expire(l);
    var held := if |e.live| == MAX_LENGTH then [] else e.live;
    var p := Frame(m)[..b];
    StartOfPrefix(m, held + x, p);
    assert held + (x + p) == held + x + p;
    BeginIncomplete(m, b);
    NothingReported(p);
  }

  lemma BeginIncomplete(m: Msg, b: nat)
    requires TooLong(m) && b <= |Frame(m)|
    ensures CompleteLength(Frame(m)[..b]) == -1 && |Frame(m)| < MAX_LENGTH
  {
    hide Frame, CompleteLength;
    FrameLength(m);
    PartIncomplete(m, 0, b);
    assert Frame(m)[0..b] == Frame(m)[..b];
  }

  /** A poll that goes on with the frame held. */
  lemma FrameContinues(l: Link, m: Msg, b: nat, rx: seq<byte>, reload: nat)
    requires TooLong(m) && b <= |Frame(m)| && l.live == Frame(m)[..b] && l.timeOut > 0
    requires rx <= Frame(m)[b..]
    ensures |l.live| < MAX_LENGTH && b + |rx| <= |Frame(m)|
    ensures var l' := Tick(l, rx, reload);
            && l' == Link(Frame(m)[..b + |rx|], if rx != [] then reload else l.timeOut - 1)
            && Receive(l'.live) == None && Recv(l') == l'
  {
    hide Frame, Tick, Recv, Receive, TooLong;
    BeginIncomplete(m, b);
    assert Frame(m)[0..b] == Frame(m)[..b] && rx == Frame(m)[b..b + |rx|];
    assert Frame(m)[0..b + |rx|] == Frame(m)[..b + |rx|];
    TickInPart(m, l, 0, b, rx, reload);
  }

  // Whole streams.

  lemma FlattenFirst(cs: seq<seq<byte>>)
    ensures Flatten(cs) == if cs == [] then [] else cs[0] + Flatten(cs[1..])
  {
    if cs != [] {
      assert cs == [cs[0]] + cs[1..];
      FlattenAppend([cs[0]], cs[1..]);
      var first: seq<seq<byte>> := [cs[0]];
      assert first[..0] == [] && Flatten(first) == cs[0];
    }
  }

  /** What is read next of a stream that goes on with `left`, then `more`. */
  lemma StreamGoesOn(rx: seq<byte>, tail: seq<byte>, left: seq<byte>, more: seq<byte>)
    requires rx + tail == left + more
    ensures |rx| <= |left| ==> rx <= left && tail == left[|rx|..] + more
    ensures |rx| > |left| ==> left < rx && rx[|left|..] <= more && tail == more[|rx| - |left|..]
  {
    assert rx == (left + more)[..|rx|] && tail == (left + more)[|rx|..];
  }

  lemma NothingLeft(m: Msg, b: nat, ms: seq<Msg>)
    requires b <= |Frame(m)| && Frame(m)[b..] + Frames(ms) == []
    ensures b == |Frame(m)| && ms == []
  {
    hide Frame;
    if ms != [] {
      FrameLength(ms[0]);
    }
  }

  /** A link that holds the beginning of a long frame hears none of the stream and ends up holding the
      last frame of it. */
  lemma {:induction false} ListenWithin(l: Link, m: Msg, b: nat, ms: seq<Msg>, polls: seq<seq<byte>>, reload: nat)
    requires TooLong(m) && AllTooLong(ms) && 0 < b <= |Frame(m)|
    requires l.live == Frame(m)[..b] && |l.live| <= MAX_LENGTH && l.timeOut > |polls| && |polls| <= reload
    requires Flatten(polls) == Frame(m)[b..] + Frames(ms) && Readable(l, polls, reload)
    ensures var h := Listen(l, polls, reload);
            && h.msg == None && h.rest == [] && h.link.timeOut > 0
            && h.link.live == Frame(if ms == [] then m else ms[|ms| - 1])
    decreases |polls|, 1
  {
    hide Frame, Tick, Recv, Receive, TooLong, Room, Flatten;
    FlattenFirst(polls);
    if polls == [] {
      NothingLeft(m, b, ms);
    } else {
      var rx, left := polls[0], Frame(m)[b..];
      if |rx| <= |left| {
        StreamGoesOn(rx, Flatten(polls[1..]), left, Frames(ms));
        FrameContinues(l, m, b, rx, reload);
        BeginIncomplete(m, b + |rx|);
        assert left[|rx|..] == Frame(m)[b + |rx|..];
        ListenWithin(Tick(l, rx, reload), m, b + |rx|, ms, polls[1..], reload);
      } else {
        StreamGoesOn(rx, Flatten(polls[1..]), left, Frames(ms));
        NextFrame(l, left, rx, ms, polls, reload);
      }
    }
  }

  lemma {:induction false} NextFrame(l: Link, left: seq<byte>, rx: seq<byte>, ms: seq<Msg>, polls: seq<seq<byte>>,
      reload: nat)
    requires AllTooLong(ms) && |l.live| <= MAX_LENGTH && |polls| <= reload
    requires polls != [] && rx == polls[0] && left < rx && rx[|left|..] <= Frames(ms)
    requires Flatten(polls[1..]) == Frames(ms)[|rx| - |left|..] && Readable(l, polls, reload)
    ensures ms != []
    ensures var h := Listen(l, polls, reload);
            h.msg == None && h.rest == [] && h.link.timeOut > 0 && h.link.live == Frame(ms[|ms| - 1])
    decreases |polls|, 0
  {
    hide Frame, Tick, Recv, Receive, TooLong, Room, Flatten;
    var j, b := EndsInFrame(rx[|left|..], ms);
    var x := left + Frames(ms[..j]);
    assert rx == x + Frame(ms[j])[..b];
    FrameBegins(l, x, ms[j], b, reload);
    BeginIncomplete(ms[j], b);
    var l' := Tick(l, rx, reload);
    ListenWithin(l', ms[j], b, ms[j + 1..], polls[1..], reload);
  }

  /** A link without a complete frame, with a whole number of long frames to come. */
  lemma {:induction false} ListenLong(l: Link, ms: seq<Msg>, polls: seq<seq<byte>>, reload: nat)
    requires AllTooLong(ms) && |l.live| < MAX_LENGTH && CompleteLength(l.live) == -1 && |polls| <= reload
    requires Flatten(polls) == Frames(ms) && Readable(l, polls, reload)
    ensures var h := Listen(l, polls, reload);
            && h.msg == None && h.rest == []
            && if ms == [] then h.link.live == l.live || h.link.live == []
               else h.link.live == Frame(ms[|ms| - 1]) && h.link.timeOut > 0
    decreases |polls|
  {
    hide Frame, Tick, Recv, Receive, TooLong, Room, Flatten, CompleteLength;
    FlattenFirst(polls);
    if polls == [] {
      NothingOwed(ms);
    } else if polls[0] == [] {
      SilentPoll(l, reload);
      EmptyIncomplete();
      assert [] + Flatten(polls[1..]) == Flatten(polls[1..]);
      ListenLong(Tick(l, [], reload), ms, polls[1..], reload);
    } else {
      StreamGoesOn(polls[0], Flatten(polls[1..]), [], Frames(ms));
      assert [] + Frames(ms) == Frames(ms);
      NextFrame(l, [], polls[0], ms, polls, reload);
    }
  }

  lemma NothingOwed(ms: seq<Msg>)
    requires Frames(ms) == []
    ensures ms == []
  {
    hide Frame;
    if ms != [] {
      FrameLength(ms[0]);
    }
  }

  // A request written over what is held.

  /** A short frame written over a long one that does not make its length an int8_t of its own or more
      is not complete. */
  lemma OverlaidIncomplete(l: Link, r: Msg, g: Msg)
    requires l.live == Frame(g) && TooLong(g) && 1 <= |r.pdu| <= 60 && |Frame(r)| > ToInt8(|Frame(g)|)
    ensures |Send(l, r).live| < MAX_LENGTH && CompleteLength(Send(l, r).live) == -1
  {
    hide Frame, FindEnd;
    FrameShape(r);
    FrameLength(g);
    BeginIncomplete(g, 0);
    var live := Overlay(l.live, Frame(r));
    OverlayStarts(l.live, Frame(r));
    assert forall i :: 0 <= i < |Frame(r)| ==> live[i] == Frame(r)[i];
    FindEndFound(live, MIN_LENGTH - 2, ToInt8(|live|));
  }

  /** One that does is heard by the first poll that brings nothing. */
  lemma OwnRequestHeard(l: Link, r: Msg, g: Msg, polls: seq<seq<byte>>, reload: nat)
    requires l.live == Frame(g) && TooLong(g) && 1 <= |r.pdu| <= 60 && |Frame(r)| <= ToInt8(|Frame(g)|)
    requires l.timeOut > 0 && polls != [] && polls[0] == []
    ensures |Send(l, r).live| <= MAX_LENGTH
    ensures Listen(Send(l, r), polls, reload) == Heard(Link([], l.timeOut - 1), Some(r), polls[1..])
  {
    hide Frame, Receive, CompleteLength, TooLong;
    BeginIncomplete(g, 0);
    FrameLength(r);
    OverlayStarts(l.live, Frame(r));
    SentIsReceived(Overlay(l.live, Frame(r)), r);
  }

  // A frame that is reported.

  /** A link that holds the beginning of a short frame, or begins with it, hears it with the poll that
      completes it. */
  lemma {:induction false} ListenShort(l: Link, m: Msg, b: nat, polls: seq<seq<byte>>, reload: nat)
    requires 1 <= |m.pdu| <= 60 && b < |Frame(m)| && |l.live| < MAX_LENGTH && |polls| <= reload
    requires if b == 0 then CompleteLength(l.live) == -1 else l.live == Frame(m)[..b] && l.timeOut > |polls|
    requires Flatten(polls) == Frame(m)[b..] && Readable(l, polls, reload)
    ensures var h := Listen(l, polls, reload);
            && h.msg == Some(m) && h.link == Link([], reload) && Flatten(h.rest) == []
    decreases |polls|
  {
    hide Frame, Tick, Recv, Receive, Room, Flatten, CompleteLength;
    FlattenFirst(polls);
    var left := Frame(m)[b..];
    assert left != [];
    var rx, tail := polls[0], polls[1..];
    StreamGoesOn(rx, Flatten(tail), left, []);
    if b == 0 && rx == [] {
      SilentPoll(l, reload);
      EmptyIncomplete();
      ListenShort(Tick(l, rx, reload), m, 0, tail, reload);
    } else {
      ShortGoesOn(l, m, b, rx, reload);
      var c := b + |rx|;
      assert left[|rx|..] == Frame(m)[c..];
      if c < |Frame(m)| {
        ListenShort(Tick(l, rx, reload), m, c, tail, reload);
      }
    }
  }

  /** One poll inside a short frame. */
  lemma ShortGoesOn(l: Link, m: Msg, b: nat, rx: seq<byte>, reload: nat)
    requires 1 <= |m.pdu| <= 60 && b < |Frame(m)| && |l.live| < MAX_LENGTH && |rx| <= Room(l) && rx <= Frame(m)[b..]
    requires (b == 0 && rx != []) || (l.live == Frame(m)[..b] && l.timeOut > 0)
    ensures b + |rx| <= |Frame(m)| < MAX_LENGTH
    ensures var l', c := Tick(l, rx, reload), b + |rx|;
            && l' == Link(Frame(m)[..c], if rx == [] then l.timeOut - 1 else reload)
            && if c < |Frame(m)| then Receive(l'.live) == None && Recv(l') == l'
               else Receive(l'.live) == Some(m) && Recv(l') == Link([], l'.timeOut)
  {
    hide Frame, Tick, Receive, Room, CompleteLength;
    FrameLength(m);
    var held, c := Frame(m)[..b], b + |rx|;
    assert held + rx == Frame(m)[..c];
    TickInFrame(m, l, held, rx, reload);
    if c < |Frame(m)| {
      PrefixIncomplete(m, Frame(m)[..c]);
      NothingReported(Frame(m)[..c]);
    } else {
      assert Frame(m)[..c] == Frame(m);
      SentIsReceived(Frame(m), m);
    }
  }
}
