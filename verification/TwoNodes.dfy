/** A master on one device and a slave on another, each behind its gateway, joined by a line: the whole
    trip of a command through both gateways and both links. */
module TwoNodes {
  import opened Bytes
  import opened Modbus
  import F = AsciiFrame
  import L = Lrc
  import opened AsciiLink
  import S = AsciiStream
  import opened Oversized
  import Listening
  import opened Slave
  import opened SlaveProperties
  import M = Master
  import opened Gateway
  import opened Node
  import opened NodeProperties
  import opened RegisterFile
  import E = EndToEnd

  /** Everything a run writes to the lines. */
  ghost function SentBy<A(!new)>(n: Node<A>, calls: seq<NodeCall>): seq<Sent>
    requires NodeInv(n) && CallsOk(calls)
    decreases |calls|
  {
    if calls == [] then []
    else
      NodeStepKeepsInv(n, calls[0].client, calls[0].inp);
      NodeStep(n, calls[0].client, calls[0].inp).sent
          + SentBy(NodeStep(n, calls[0].client, calls[0].inp).node, calls[1..])
  }

  /** One call for client `i` for each chunk the line offers. */
  function Polls(i: nat, chunks: seq<seq<byte>>, rest: seq<byte>): seq<NodeCall> {
    seq(|chunks|, k requires 0 <= k < |chunks| => ClientCall(i, Input(chunks[k], rest)))
  }

  /** `count` calls for client `i` with a silent line. */
  function Silent(i: nat, count: nat, rest: seq<byte>): seq<NodeCall> {
    Polls(i, seq(count, k => []), rest)
  }

  /** The chunks bring a link to report `m`, with the last of them and not before. */
  ghost predicate Hears(l: Link, chunks: seq<seq<byte>>, m: F.Msg, reload: nat)
    requires |l.live| <= F.MAX_LENGTH
  {
    Listening.Listen(l, chunks, reload).msg == Some(m) && Listening.Listen(l, chunks, reload).rest == []
  }

  lemma {:induction false} RunAppend<A(!new)>(n: Node<A>, a: seq<NodeCall>, b: seq<NodeCall>)
    requires NodeInv(n) && CallsOk(a) && CallsOk(b)
    ensures CallsOk(a + b)
    ensures NodeRun(n, a + b) == NodeRun(NodeRun(n, a), b)
    ensures SentBy(n, a + b) == SentBy(n, a) + SentBy(NodeRun(n, a), b)
    decreases |a|
  {
    hide Sane, Own, DistinctSlaves, Inv, NodeStep;
    if a == [] {
      assert a + b == b;
    } else {
      NodeStepKeepsInv(n, a[0].client, a[0].inp);
      assert (a + b)[1..] == a[1..] + b && (a + b)[0] == a[0];
      RunAppend(NodeStep(n, a[0].client, a[0].inp).node, a[1..], b);
    }
  }

  lemma OneCall<A(!new)>(n: Node<A>, call: NodeCall)
    requires NodeInv(n) && CallsOk([call])
    ensures call.client < TOTAL_CLIENTS && InputOk(call.inp)
    ensures NodeRun(n, [call]) == NodeStep(n, call.client, call.inp).node
    ensures SentBy(n, [call]) == NodeStep(n, call.client, call.inp).sent
  {
    hide Sane, Own, DistinctSlaves, Inv, NodeStep;
    assert [call][0] == call;
    NodeStepKeepsInv(n, call.client, call.inp);
    assert [call][1..] == [];
  }

  // Single calls.

  function WithClient(g: Gateway, i: nat, c: Client): Gateway
    requires i < |g.clients|
  {
    g.(clients := g.clients[i := c])
  }

  /** An idle client of a master with a command that has tries left holds its request. */
  lemma MasterAsks<A(!new)>(n: Node<A>, i: nat, h: nat, inp: Input)
    requires NodeInv(n) && InputOk(inp) && i < TOTAL_CLIENTS && h < |n.masters|
    requires var c := n.gw.clients[i]; c.inUse && c.kind == MasterModule && c.handler == h && c.state == Idle
    requires n.masters[h].cmd != 0 && n.masters[h].retryCount > 0
    ensures var m, c := n.masters[h], n.gw.clients[i];
            NodeStep(n, i, inp) == Stepped(
              n.(masters := n.masters[h := M.Tried(m)],
                 gw := WithClient(n.gw, i, c.(id := m.slaveId, buffer := Overlay(c.buffer, M.Request(m)),
                     size := |M.Request(m)|, state := Routing))), [])
  {
    var m := n.masters[h];
    assert M.Sound(m);
    MasterSound(m, 0, n.gw.clients[i].buffer, 0);
    hide M.Sound, M.Request, Contract;
    assert M.Request(M.Tried(m)) == M.Request(m) by { TriedAsksTheSame(m); }
  }

  lemma TriedAsksTheSame(m: M.Master)
    requires M.Sound(m) && m.cmd != 0 && m.retryCount > 0
    ensures M.Request(M.Tried(m)) == M.Request(m) && M.Tried(m).respTimeout == m.respTimeout
  {
  }

  lemma WithClientTwice(g: Gateway, i: nat, c: Client, c': Client)
    requires i < |g.clients|
    ensures WithClient(WithClient(g, i, c), i, c') == WithClient(g, i, c')
  {
    assert g.clients[i := c][i := c'] == g.clients[i := c'];
  }

  /** Link `t` becomes `l`. */
  function WithLink<A>(n: Node<A>, t: nat, l: Link): Node<A>
    requires t < |n.links|
  {
    n.(links := n.links[t := n.links[t].(link := l)])
  }

  lemma Routed<A(!new)>(n: Node<A>, i: nat, inp: Input)
    requires NodeInv(n) && InputOk(inp) && i < TOTAL_CLIENTS && n.gw.clients[i].inUse
             && n.gw.clients[i].state == Routing
    requires Route(n.gw.servers, n.gw.clients[i].id) >= 0
    ensures NodeStep(n, i, inp) == Stepped(
              n.(gw := WithClient(n.gw, i, n.gw.clients[i].(indexServer := Route(n.gw.servers, n.gw.clients[i].id),
                  state := Sending))), [])
  {
    hide Sane, Own, DistinctSlaves, Exclusive, Route;
  }

  /** A request for a free transport server goes out on its link. */
  lemma SentToLink<A(!new)>(n: Node<A>, i: nat, inp: Input)
    requires NodeInv(n) && InputOk(inp) && i < TOTAL_CLIENTS && n.gw.clients[i].inUse
             && n.gw.clients[i].state == Sending
    requires var s := n.gw.servers[n.gw.clients[i].indexServer]; s.kind == TransportModule && !s.busy
    requires Fits(F.Msg(n.gw.clients[i].id, n.gw.clients[i].buffer[..n.gw.clients[i].size]))
    ensures var c := n.gw.clients[i];
            var t, m := n.gw.servers[c.indexServer].handler, F.Msg(c.id, c.buffer[..c.size]);
            && 0 <= t < |n.links|
            && NodeStep(n, i, inp) == Stepped(
                 n.(links := n.links[t := n.links[t].(link := Send(n.links[t].link, m))],
                    gw := WithClient(n.gw, i, c.(timeout := TimeoutOf(n, c), state := Waiting)).(servers :=
                        SetBusy(n.gw.servers, c.indexServer, true))),
                 [Sent(t, F.Frame(m))])
  {
    hide Own, DistinctSlaves, Exclusive, Contract, M.Sound, Send, F.Frame, Fits, TimeoutOf;
    var c := n.gw.clients[i];
    assert ServerOk(n, n.gw.servers[c.indexServer]);
    SendOfFitting(n, n.gw.servers[c.indexServer].handler, F.Msg(c.id, c.buffer[..c.size]));
  }

  lemma SendOfFitting<A(!new)>(n: Node<A>, t: nat, m: F.Msg)
    requires t < |n.links| && Fits(m)
    ensures SendLink(n, t, m) == Stepped(n.(links := n.links[t := n.links[t].(link := Send(n.links[t].link, m))]),
            [Sent(t, F.Frame(m))])
  {
  }

  /** The buffer after a link copied a message to it, check byte included. */
  function Copied(buffer: seq<byte>, m: F.Msg): seq<byte> {
    Overlay(buffer, m.pdu + [L.CheckByte([m.id] + m.pdu)])
  }

  // A master's client waits for a link.

  /** Client `i` of master `h` waits for link `t`. */
  ghost predicate WaitsForLink<A(!new)>(n: Node<A>, i: nat, h: nat, t: nat)
    requires NodeInv(n)
  {
    && i < TOTAL_CLIENTS && h < |n.masters| && t < |n.links| && |n.links[t].link.live| <= F.MAX_LENGTH
    && var c := n.gw.clients[i];
       && c.inUse && c.state == Waiting && c.kind == MasterModule && c.handler == h
       && n.gw.servers[c.indexServer].kind == TransportModule && n.gw.servers[c.indexServer].handler == t
  }

  /** A client waiting for a link that reports nothing yet uses one unit of its timeout. */
  lemma WaitsOn<A(!new)>(n: Node<A>, i: nat, h: nat, t: nat, inp: Input)
    requires NodeInv(n) && InputOk(inp) && WaitsForLink(n, i, h, t) && n.gw.clients[i].timeout > 0
    requires F.Receive(Tick(n.links[t].link, inp.rx, Reload(n.timeBase)).live) == None
    ensures var c, l := n.gw.clients[i], Tick(n.links[t].link, inp.rx, Reload(n.timeBase));
            NodeStep(n, i, inp) == Stepped(
              WithLink(n, t, Recv(l)).(gw := WithClient(n.gw, i, c.(size := 0, timeout := c.timeout - 1))), [])
  {
    hide Own, DistinctSlaves, Exclusive, Contract, M.Sound, F.Receive, Tick, Recv;
    HearServerSane(n, i, inp);
  }

  /** The node when client `i` of master `h` has heard `msg` of link `t`, or given up, with `left` units of
      its timeout left: the client is idle, the server free, and the message handed to the master. */
  ghost function WaitOver<A(!new)>(n: Node<A>, i: nat, h: nat, t: nat, l: Link, msg: Option<F.Msg>, left: nat): Node<A>
    requires NodeInv(n) && WaitsForLink(n, i, h, t)
    requires msg.Some? ==> 2 <= |msg.value.pdu| <= 60
  {
    var c := n.gw.clients[i];
    WithLink(n, t, l).(
      gw := WithClient(n.gw, i, Released(c, msg, left)).(servers := SetBusy(n.gw.servers, c.indexServer, false)),
      masters := n.masters[h := ToldMaster(n.masters[h], c.buffer, msg)])
  }

  /** A client that waits no more. */
  function Released(c: Client, msg: Option<F.Msg>, left: nat): Client {
    match msg
    case None => c.(size := 0, timeout := left, state := Idle)
    case Some(m) => c.(id := m.id, buffer := Copied(c.buffer, m), size := |m.pdu|, timeout := left, state := Idle)
  }

  /** What a message copied to the client's buffer does to its master. */
  function ToldMaster(m: M.Master, buffer: seq<byte>, msg: Option<F.Msg>): M.Master
    requires M.Sound(m) && |buffer| == BUFFER_SIZE && (msg.Some? ==> |msg.value.pdu| <= 60)
  {
    match msg
    case None => m
    case Some(rsp) => M.Response(m, rsp.id, Copied(buffer, rsp), |rsp.pdu|)
  }

  /** A message that the link reports ends the wait, and so does its absence when no time is left. */
  lemma WaitEnds<A(!new)>(n: Node<A>, i: nat, h: nat, t: nat, inp: Input)
    requires NodeInv(n) && InputOk(inp) && WaitsForLink(n, i, h, t)
    requires match F.Receive(Tick(n.links[t].link, inp.rx, Reload(n.timeBase)).live)
             case None => n.gw.clients[i].timeout == 0
             case Some(m) => 2 <= |m.pdu| <= 60
    ensures var l := Tick(n.links[t].link, inp.rx, Reload(n.timeBase));
            NodeStep(n, i, inp) == Stepped(
              WaitOver(n, i, h, t, Recv(l), F.Receive(l.live), n.gw.clients[i].timeout), [])
  {
    hide Own, DistinctSlaves, Exclusive, Contract, M.Sound, M.Response, F.Receive, Tick, Recv;
    HearServerSane(n, i, inp);
    LinkHearsSane(n.links[t].link, n.gw.clients[i].id, n.gw.clients[i].buffer, inp.rx, Reload(n.timeBase));
  }

  lemma PollsStep(i: nat, chunks: seq<seq<byte>>, rest: seq<byte>)
    requires chunks != [] && i < TOTAL_CLIENTS && |rest| == BUFFER_SIZE
    ensures |Polls(i, chunks, rest)| == |chunks| && CallsOk(Polls(i, chunks, rest))
            && Polls(i, chunks, rest)[0] == ClientCall(i, Input(chunks[0], rest))
    ensures Polls(i, chunks, rest)[1..] == Polls(i, chunks[1..], rest)
    ensures CallsOk(Polls(i, chunks[1..], rest))
  {
  }

  /** The wait goes on as it would have begun. */
  lemma WaitOverLater<A(!new)>(n: Node<A>, n1: Node<A>, i: nat, h: nat, t: nat, l1: Link, l: Link,
      msg: Option<F.Msg>, left: nat)
    requires NodeInv(n) && WaitsForLink(n, i, h, t) && n.gw.clients[i].timeout > 0
    requires msg.Some? ==> 2 <= |msg.value.pdu| <= 60
    requires var c := n.gw.clients[i];
             n1 == WithLink(n, t, l1).(gw := WithClient(n.gw, i, c.(size := 0, timeout := c.timeout - 1)))
    requires NodeInv(n1) && |l1.live| <= F.MAX_LENGTH
    ensures WaitsForLink(n1, i, h, t) && WaitOver(n1, i, h, t, l, msg, left) == WaitOver(n, i, h, t, l, msg, left)
  {
    hide Own, DistinctSlaves, Exclusive, Contract, M.Sound, ToldMaster, Copied;
    var c, c1 := n.gw.clients[i], n1.gw.clients[i];
    assert c1.buffer == c.buffer && c1.indexServer == c.indexServer;
    assert n1.links[t := n1.links[t].(link := l)] == n.links[t := n.links[t].(link := l)];
    assert forall c' :: WithClient(n1.gw, i, c') == WithClient(n.gw, i, c');
  }

  /** The polls last until a message is heard, or as long as client `i` waits. */
  ghost predicate PollsLast<A(!new)>(n: Node<A>, i: nat, h: nat, t: nat, polls: seq<seq<byte>>)
    requires NodeInv(n) && WaitsForLink(n, i, h, t)
  {
    && 0 < |polls| <= n.gw.clients[i].timeout + 1
    && match Listening.Listen(n.links[t].link, polls, Reload(n.timeBase)).msg
       case None => |polls| == n.gw.clients[i].timeout + 1
       case Some(m) => |m.pdu| >= 2
  }

  /** What the polls of a wait do: those of the link's `Listen` are made, and then the client gives the
      message heard to the master, or gives up. */
  ghost predicate WaitDone<A(!new)>(n: Node<A>, i: nat, h: nat, t: nat, polls: seq<seq<byte>>, rest: seq<byte>)
    requires NodeInv(n) && WaitsForLink(n, i, h, t)
  {
    var heard, made := Listening.Listen(n.links[t].link, polls, Reload(n.timeBase)),
        Listening.Made(n.links[t].link, polls, Reload(n.timeBase));
    && 0 < |made| <= n.gw.clients[i].timeout + 1 && (heard.msg.Some? ==> 2 <= |heard.msg.value.pdu| <= 60)
    && CallsOk(Polls(i, made, rest)) && SentBy(n, Polls(i, made, rest)) == []
    && NodeRun(n, Polls(i, made, rest)) ==
       WaitOver(n, i, h, t, heard.link, heard.msg, n.gw.clients[i].timeout + 1 - |made|)
  }

  lemma WaitEndsAtOnce<A(!new)>(n: Node<A>, i: nat, h: nat, t: nat, polls: seq<seq<byte>>, rest: seq<byte>)
    requires NodeInv(n) && WaitsForLink(n, i, h, t) && |rest| == BUFFER_SIZE && PollsLast(n, i, h, t, polls)
    requires F.Receive(Tick(n.links[t].link, polls[0], Reload(n.timeBase)).live).Some? || |polls| == 1
    ensures WaitDone(n, i, h, t, polls, rest)
  {
    hide Inv, Own, DistinctSlaves, Contract, NodeStep, NodeRun, SentBy, Polls, WaitOver, Tick, Recv, F.Receive,
         Listening.Listen, Listening.Made, M.Sound;
    var l, reload := n.links[t].link, Reload(n.timeBase);
    Listening.FirstPollMade(l, polls, reload);
    Listening.HeardShort(l, polls, reload);
    OneCall(n, ClientCall(i, Input(polls[0], rest)));
    WaitEnds(n, i, h, t, Input(polls[0], rest));
    OnePoll(i, polls[0], [], rest);
  }

  /** Client `i` goes on waiting after its first poll, as device `n1`. */
  ghost predicate WaitsStill<A(!new)>(n: Node<A>, n1: Node<A>, i: nat, h: nat, t: nat, polls: seq<seq<byte>>)
    requires NodeInv(n) && WaitsForLink(n, i, h, t)
  {
    && PollsLast(n, i, h, t, polls) && |polls| > 1 && n.timeBase > 0
    && var c, l := n.gw.clients[i], Tick(n.links[t].link, polls[0], Reload(n.timeBase));
       && F.Receive(l.live) == None && c.timeout > 0
       && n1 == WithLink(n, t, Recv(l)).(gw := WithClient(n.gw, i, c.(size := 0, timeout := c.timeout - 1)))
  }

  lemma WaitGoesOn<A(!new)>(n: Node<A>, n1: Node<A>, i: nat, h: nat, t: nat, polls: seq<seq<byte>>)
    requires NodeInv(n) && WaitsForLink(n, i, h, t) && NodeInv(n1) && WaitsStill(n, n1, i, h, t, polls)
    ensures WaitsForLink(n1, i, h, t) && PollsLast(n1, i, h, t, polls[1..])
  {
    hide Own, DistinctSlaves, Contract, Tick, Recv, F.Receive, Exclusive, Listening.Listen, M.Sound, WaitOver;
    var l, reload := n.links[t].link, Reload(n.timeBase);
    Listening.FirstPollMade(l, polls, reload);
    WaitOverLater(n, n1, i, h, t, Recv(Tick(l, polls[0], reload)), l, None, 0);
  }

  lemma WaitWasDone<A(!new)>(n: Node<A>, n1: Node<A>, i: nat, h: nat, t: nat, polls: seq<seq<byte>>, rest: seq<byte>)
    requires NodeInv(n) && WaitsForLink(n, i, h, t) && NodeInv(n1) && WaitsStill(n, n1, i, h, t, polls)
    requires WaitsForLink(n1, i, h, t) && WaitDone(n1, i, h, t, polls[1..], rest)
    requires var call := ClientCall(i, Input(polls[0], rest));
             CallsOk([call]) && NodeRun(n, [call]) == n1 && SentBy(n, [call]) == []
    ensures WaitDone(n, i, h, t, polls, rest)
  {
    hide NodeInv, WaitsForLink, NodeStep, NodeRun, SentBy, Polls, WaitOver, Tick, Recv, F.Receive, Listening.Listen,
         Listening.Made, M.Sound, WaitsStill;
    var left, l, reload := FirstOfWait(n, n1, i, h, t, polls);
    Listening.FirstPollMade(l, polls, reload);
    var l1 := Recv(Tick(l, polls[0], reload));
    var heard, later := Listening.Listen(l, polls, reload), Listening.Made(l1, polls[1..], reload);
    WaitOverLater(n, n1, i, h, t, l1, heard.link, heard.msg, left - |later|);
    OnePoll(i, polls[0], later, rest);
    RunAppend(n, [ClientCall(i, Input(polls[0], rest))], Polls(i, later, rest));
  }

  lemma FirstOfWait<A(!new)>(n: Node<A>, n1: Node<A>, i: nat, h: nat, t: nat, polls: seq<seq<byte>>)
      returns (left: nat, l: Link, reload: nat)
    requires NodeInv(n) && WaitsForLink(n, i, h, t) && NodeInv(n1) && WaitsStill(n, n1, i, h, t, polls)
    ensures i < TOTAL_CLIENTS == |n.gw.clients| == |n1.gw.clients| && t < |n.links| == |n1.links| && |polls| > 1
    ensures n.timeBase > 0 && n1.timeBase > 0 && reload == Reload(n.timeBase) == Reload(n1.timeBase)
    ensures l == n.links[t].link && |l.live| <= F.MAX_LENGTH
    ensures left == n.gw.clients[i].timeout == n1.gw.clients[i].timeout + 1
    ensures n1.links[t].link == Recv(Tick(l, polls[0], reload))
    ensures F.Receive(Tick(l, polls[0], reload).live) == None
    ensures n1 == WithLink(n, t, Recv(Tick(l, polls[0], reload))).(gw := WithClient(n.gw, i,
              n.gw.clients[i].(size := 0, timeout := left - 1)))
  {
    hide Own, DistinctSlaves, Contract, Tick, Recv, F.Receive, Exclusive, Listening.Listen, M.Sound;
    left, l, reload := n.gw.clients[i].timeout, n.links[t].link, Reload(n.timeBase);
  }

  /** MAIN: a client of a master that waits for a link makes the polls of the link's `Listen`, and then hands
      the message heard to the master, or gives up if it heard nothing in as many polls as its timeout and
      one more. */
  lemma {:induction false} WaitOnLink<A(!new)>(n: Node<A>, i: nat, h: nat, t: nat, polls: seq<seq<byte>>,
      rest: seq<byte>)
    requires NodeInv(n) && WaitsForLink(n, i, h, t) && |rest| == BUFFER_SIZE && PollsLast(n, i, h, t, polls)
    ensures WaitDone(n, i, h, t, polls, rest)
    decreases |polls|
  {
    hide NodeStep, NodeRun, SentBy, WaitDone, Tick, Recv, F.Receive, Listening.Listen, Own, DistinctSlaves, Contract,
         Exclusive, M.Sound;
    if F.Receive(Tick(n.links[t].link, polls[0], Reload(n.timeBase)).live).Some? || |polls| == 1 {
      WaitEndsAtOnce(n, i, h, t, polls, rest);
    } else {
      var inp := Input(polls[0], rest);
      OneCall(n, ClientCall(i, inp));
      WaitsOn(n, i, h, t, inp);
      NodeStepKeepsInv(n, i, inp);
      var n1 := NodeStep(n, i, inp).node;
      WaitGoesOn(n, n1, i, h, t, polls);
      WaitOnLink(n1, i, h, t, polls[1..], rest);
      WaitWasDone(n, n1, i, h, t, polls, rest);
    }
  }

  lemma OnePoll(i: nat, rx: seq<byte>, later: seq<seq<byte>>, rest: seq<byte>)
    ensures Polls(i, [rx] + later, rest) == [ClientCall(i, Input(rx, rest))] + Polls(i, later, rest)
    ensures Polls(i, [rx], rest) == [ClientCall(i, Input(rx, rest))]
  {
  }

  /** An idle client of a link that reports nothing yet stays idle. */
  lemma ListensOn<A(!new)>(n: Node<A>, j: nat, inp: Input)
    requires NodeInv(n) && InputOk(inp) && j < TOTAL_CLIENTS && n.gw.clients[j].inUse && n.gw.clients[j].state == Idle
    requires n.gw.clients[j].kind == TransportModule
    requires var t := n.gw.clients[j].handler;
             0 <= t < |n.links| && |n.links[t].link.live| <= F.MAX_LENGTH
                 && F.Receive(Tick(n.links[t].link, inp.rx, Reload(n.timeBase)).live) == None
    ensures var c := n.gw.clients[j];
            var l := Tick(n.links[c.handler].link, inp.rx, Reload(n.timeBase));
            NodeStep(n, j, inp) == Stepped(
              WithLink(n, c.handler, Recv(l)).(gw := WithClient(n.gw, j, c.(size := 0))), [])
  {
    hide Own, DistinctSlaves, Exclusive, Contract, M.Sound, F.Receive, Tick, Recv;
  }

  /** An idle client of a link takes the message the link reports as its request. */
  lemma Takes<A(!new)>(n: Node<A>, j: nat, inp: Input, m: F.Msg)
    requires NodeInv(n) && InputOk(inp) && j < TOTAL_CLIENTS && n.gw.clients[j].inUse && n.gw.clients[j].state == Idle
    requires n.gw.clients[j].kind == TransportModule && |m.pdu| >= 1
    requires var t := n.gw.clients[j].handler;
             0 <= t < |n.links| && |n.links[t].link.live| <= F.MAX_LENGTH
                 && F.Receive(Tick(n.links[t].link, inp.rx, Reload(n.timeBase)).live) == Some(m)
    ensures var c := n.gw.clients[j];
            var l := Tick(n.links[c.handler].link, inp.rx, Reload(n.timeBase));
            NodeStep(n, j, inp) == Stepped(
              WithLink(n, c.handler, Recv(l)).(gw := WithClient(n.gw, j,
                  c.(id := m.id, buffer := Copied(c.buffer, m), size := |m.pdu|, state := Routing))), [])
  {
    hide Own, DistinctSlaves, Exclusive, Contract, M.Sound, F.Receive, Tick, Recv;
  }

  /** The first of the chunks is reported if it is the only one. */
  lemma HearsOn(l: Link, chunks: seq<seq<byte>>, m: F.Msg, reload: nat)
    requires |l.live| <= F.MAX_LENGTH && Hears(l, chunks, m, reload) && chunks != []
    ensures var l' := Tick(l, chunks[0], reload);
            if |chunks| == 1 then F.Receive(l'.live) == Some(m)
            else
              && F.Receive(l'.live) == None && |Recv(l').live| <= F.MAX_LENGTH
              && Hears(Recv(l'), chunks[1..], m, reload)
  {
    hide Tick, Recv, F.Receive;
    Listening.PollBound(l, chunks[0], reload);
    if |chunks| == 1 {
      assert chunks[1..] == [];
      assert Listening.Listen(Recv(Tick(l, chunks[0], reload)), chunks[1..], reload).msg == None;
    }
  }

  /** An idle client of a link gets the message its chunks make up. */
  lemma {:induction false} RequestHeard<A(!new)>(n: Node<A>, j: nat, chunks: seq<seq<byte>>, m: F.Msg, rest: seq<byte>)
    requires NodeInv(n) && j < TOTAL_CLIENTS && |rest| == BUFFER_SIZE && chunks != [] && |m.pdu| >= 1
    requires var c := n.gw.clients[j];
             c.inUse && c.state == Idle && c.kind == TransportModule && 0 <= c.handler < |n.links|
    requires |n.links[n.gw.clients[j].handler].link.live| <= F.MAX_LENGTH
    requires Hears(n.links[n.gw.clients[j].handler].link, chunks, m, Reload(n.timeBase))
    ensures CallsOk(Polls(j, chunks, rest))
    ensures var c, n' := n.gw.clients[j], NodeRun(n, Polls(j, chunks, rest));
            && n'.gw == WithClient(n.gw, j,
               c.(id := m.id, buffer := Copied(c.buffer, m), size := |m.pdu|, state := Routing))
            && n'.slaves == n.slaves && n'.masters == n.masters && n'.timeBase == n.timeBase && |n'.links| == |n.links|
            && SentBy(n, Polls(j, chunks, rest)) == []
    decreases |chunks|
  {
    hide Own, DistinctSlaves, Exclusive, Contract, NodeStep, Hears, Tick, Recv, F.Receive, Polls, Copied, M.Sound;
    var inp := Input(chunks[0], rest);
    var l := n.links[n.gw.clients[j].handler].link;
    PollsStep(j, chunks, rest);
    NodeStepKeepsInv(n, j, inp);
    if |chunks| == 1 {
      HearsOn(l, chunks, m, Reload(n.timeBase));
      Takes(n, j, inp, m);
      assert Polls(j, chunks, rest)[1..] == [];
    } else {
      HearsOn(l, chunks, m, Reload(n.timeBase));
      ListensOn(n, j, inp);
      RequestHeard(NodeStep(n, j, inp).node, j, chunks[1..], m, rest);
    }
  }

  /** The answer of a slave goes out on the link of the client that waits for it. */
  lemma AnswerGoesOut<A(!new)>(n: Node<A>, j: nat, h: nat, inp: Input)
    requires NodeInv(n) && InputOk(inp) && j < TOTAL_CLIENTS && h < |n.slaves| && WaitsForSlave(n, j, h)
    requires n.gw.clients[j].kind == TransportModule
    ensures n.gw.clients[j].size <= |n.gw.clients[j].buffer| && n.slaves[h].size == n.gw.clients[j].size >= 1
    ensures var c, sl, st := n.gw.clients[j], n.slaves[h], NodeStep(n, j, inp);
            var served := Serve(sl.cmd, sl.app, c.buffer[..c.size]);
            && h < |st.node.slaves| && st.node.slaves[h].app == served.app
            && j < |st.node.gw.clients| && st.node.gw.clients[j].state == Idle
            && st.sent == [Sent(c.handler, F.Frame(F.Msg(sl.id, served.reply)))]
  {
    hide DistinctSlaves, Exclusive, Contract, NodeStep, Serve, F.Frame, M.Sound;
    Forwarded(n, j, h, inp);
  }

  /** A request for a free slave goes through the gateway in three calls: the slave answers it, and the
      answer goes out on the client's link under the slave's id. */
  lemma Answered<A(!new)>(n: Node<A>, j: nat, h: nat, rest: seq<byte>)
    requires NodeInv(n) && j < TOTAL_CLIENTS && |rest| == BUFFER_SIZE && h < |n.slaves|
    requires var c := n.gw.clients[j]; c.inUse && c.state == Routing && c.kind == TransportModule && c.size >= 1
    requires var s := Route(n.gw.servers, n.gw.clients[j].id);
             s >= 0 && n.gw.servers[s].kind == SlaveModule && n.gw.servers[s].handler == h && !n.gw.servers[s].busy
    ensures CallsOk(Silent(j, 3, rest))
    ensures n.gw.clients[j].size <= |n.gw.clients[j].buffer|
    ensures var c, sl, n' := n.gw.clients[j], n.slaves[h], NodeRun(n, Silent(j, 3, rest));
            var served := Serve(sl.cmd, sl.app, c.buffer[..c.size]);
            && h < |n'.slaves| && n'.slaves[h].app == served.app && n'.gw.clients[j].state == Idle
            && SentBy(n, Silent(j, 3, rest)) == [Sent(c.handler, F.Frame(F.Msg(sl.id, served.reply)))]
  {
    hide Own, DistinctSlaves, Exclusive, Contract, NodeStep, Serve, F.Frame, M.Sound, NodeRun, SentBy;
    var inp := Input([], rest);
    var call := ClientCall(j, inp);
    assert Silent(j, 3, rest) == [call] + [call] + [call];
    OneCall(n, call);
    Routed(n, j, inp);
    NodeStepKeepsInv(n, j, inp);
    var n1 := NodeStep(n, j, inp).node;
    OneCall(n1, call);
    RequestHandedOver(n1, j, inp);
    var n2 := NodeStep(n1, j, inp).node;
    OneCall(n2, call);
    AnswerGoesOut(n2, j, h, inp);
    RunAppend(n, [call], [call]);
    RunAppend(n, [call] + [call], [call]);
  }

  /** Client `i` is idle, its master `h` has a command with tries left, and the slave id of the command
      is routed to a free link. */
  ghost predicate Asking<A(!new)>(n: Node<A>, i: nat, h: nat)
    requires NodeInv(n) && i < TOTAL_CLIENTS && h < |n.masters|
  {
    var c, m := n.gw.clients[i], n.masters[h];
    var s := Route(n.gw.servers, m.slaveId);
    && c.inUse && c.kind == MasterModule && c.handler == h && c.state == Idle
    && m.cmd != 0 && m.retryCount > 0
    && s >= 0 && n.gw.servers[s].kind == TransportModule && !n.gw.servers[s].busy
  }

  /** The client of a master with its request, on the way to server `s`. */
  function Ready(c: Client, m: M.Master, s: int): Client
    requires M.Sound(m)
  {
    c.(id := m.slaveId, buffer := Overlay(c.buffer, M.Request(m)), size := |M.Request(m)|, indexServer := s,
        state := Sending)
  }

  /** The link of the server that an id is routed to. */
  function ServerLink<A>(n: Node<A>, id: byte): Option<Link>
  {
    var s := Route(n.gw.servers, id);
    if s >= 0 && n.gw.servers[s].kind == TransportModule && 0 <= n.gw.servers[s].handler < |n.links| then
      Some(n.links[n.gw.servers[s].handler].link)
    else None
  }

  /** Client `i` is about to send a request of master `h` that the link writes. */
  ghost predicate AboutToAsk<A(!new)>(n: Node<A>, i: nat, h: nat) {
    && NodeInv(n) && i < TOTAL_CLIENTS && h < |n.masters| && M.Sound(n.masters[h]) && Asking(n, i, h)
    && Fits(RequestOf(n.masters[h]))
    && ServerLink(n, n.masters[h].slaveId).Some?
    && |ServerLink(n, n.masters[h].slaveId).value.live| <= F.MAX_LENGTH && |n.gw.clients[i].buffer| == BUFFER_SIZE
  }

  /** The link once the request was written over what it held. */
  ghost function LinkAfterRequest<A(!new)>(n: Node<A>, i: nat, h: nat): (l: Link)
    requires AboutToAsk(n, i, h)
    ensures |l.live| <= F.MAX_LENGTH
  {
    Overwritten(ServerLink(n, n.masters[h].slaveId).value, n.masters[h])
  }

  /** What goes out first in a try. */
  ghost function RequestSent<A(!new)>(n: Node<A>, i: nat, h: nat): seq<Sent>
    requires AboutToAsk(n, i, h)
  {
    var m := n.masters[h];
    [Sent(n.gw.servers[Route(n.gw.servers, m.slaveId)].handler, F.Frame(RequestOf(m)))]
  }

  /** The node when the request is out and the wait has begun. */
  ghost function AfterRequest<A(!new)>(n: Node<A>, i: nat, h: nat): Node<A>
    requires AboutToAsk(n, i, h) && n.timeBase > 0
  {
    var m, s := n.masters[h], Route(n.gw.servers, n.masters[h].slaveId);
    var c := Ready(n.gw.clients[i], m, s).(state := Waiting, timeout := m.respTimeout / n.timeBase);
    WithLink(n, n.gw.servers[s].handler, LinkAfterRequest(n, i, h)).(
      masters := n.masters[h := M.Tried(m)],
      gw := WithClient(n.gw, i, c).(servers := SetBusy(n.gw.servers, s, true)))
  }

  /** The node when the request is made and its server found. */
  ghost function RequestMade<A(!new)>(n: Node<A>, i: nat, h: nat): Node<A>
    requires AboutToAsk(n, i, h)
  {
    var m := n.masters[h];
    n.(masters := n.masters[h := M.Tried(m)],
       gw := WithClient(n.gw, i, Ready(n.gw.clients[i], m, Route(n.gw.servers, m.slaveId))))
  }

  /** Two calls make the request and find its server. */
  lemma RequestReady<A(!new)>(n: Node<A>, i: nat, h: nat, inp: Input)
    requires AboutToAsk(n, i, h) && InputOk(inp)
    ensures NodeInv(n) && i < TOTAL_CLIENTS
    ensures var calls := [ClientCall(i, inp)] + [ClientCall(i, inp)];
            CallsOk(calls) && SentBy(n, calls) == [] && NodeRun(n, calls) == RequestMade(n, i, h)
  {
    hide Own, DistinctSlaves, Exclusive, Contract, NodeStep, M.Sound, M.Request, M.Tried, NodeRun, SentBy, Route;
    var call := ClientCall(i, inp);
    OneCall(n, call);
    MasterAsks(n, i, h, inp);
    NodeStepKeepsInv(n, i, inp);
    var n1 := NodeStep(n, i, inp).node;
    OneCall(n1, call);
    Routed(n1, i, inp);
    RunAppend(n, [call], [call]);
  }

  lemma ReadySent<A(!new)>(n: Node<A>, i: nat, h: nat, inp: Input)
    requires AboutToAsk(n, i, h) && NodeInv(RequestMade(n, i, h)) && InputOk(inp)
    ensures n.timeBase > 0
    ensures NodeStep(RequestMade(n, i, h), i, inp) == Stepped(AfterRequest(n, i, h), RequestSent(n, i, h))
  {
    hide Own, DistinctSlaves, Exclusive, Contract, NodeStep, F.Frame, Send, M.Request, M.Tried, Route, Fits, Overlay;
    var m, s, n2 := n.masters[h], Route(n.gw.servers, n.masters[h].slaveId), RequestMade(n, i, h);
    var c2 := Ready(n.gw.clients[i], m, s);
    assert n2.gw.clients[i] == c2 && n2.gw.servers == n.gw.servers;
    HeldRequest(n.gw.clients[i].buffer, m);
    TriedAsksTheSame(m);
    SentToLink(n2, i, inp);
    WithClientTwice(n.gw, i, c2, c2.(timeout := m.respTimeout / n.timeBase, state := Waiting));
  }

  /** The third call sends the request on the link of that server and starts the wait. */
  lemma RequestGoesOut<A(!new)>(n: Node<A>, i: nat, h: nat, rest: seq<byte>)
    requires AboutToAsk(n, i, h) && |rest| == BUFFER_SIZE
    ensures NodeInv(n) && n.timeBase > 0 && CallsOk(Silent(i, 3, rest))
    ensures NodeRun(n, Silent(i, 3, rest)) == AfterRequest(n, i, h)
    ensures SentBy(n, Silent(i, 3, rest)) == RequestSent(n, i, h)
  {
    hide NodeInv, AboutToAsk, NodeStep, NodeRun, SentBy, RequestMade, AfterRequest, RequestSent;
    var inp := Input([], rest);
    var call := ClientCall(i, inp);
    assert Silent(i, 3, rest) == [call] + [call] + [call];
    RequestReady(n, i, h, inp);
    ReadySent(n, i, h, inp);
    OneCall(RequestMade(n, i, h), call);
    RunAppend(n, [call] + [call], [call]);
  }

  lemma HeldRequest(buffer: seq<byte>, m: M.Master)
    requires |buffer| == BUFFER_SIZE && M.Sound(m)
    ensures Overlay(buffer, M.Request(m))[..|M.Request(m)|] == M.Request(m)
  {
  }

  /** Client `j` is an idle link, and slave id `id` is routed to the free slave `h` of that id. */
  ghost predicate Serving<A(!new)>(n: Node<A>, j: nat, h: nat, id: byte)
    requires NodeInv(n) && j < TOTAL_CLIENTS && h < |n.slaves|
  {
    var c, s := n.gw.clients[j], Route(n.gw.servers, id);
    && c.inUse && c.kind == TransportModule && 0 <= c.handler < |n.links| && c.state == Idle
    && s >= 0 && n.gw.servers[s].kind == SlaveModule && n.gw.servers[s].handler == h && !n.gw.servers[s].busy
    && n.slaves[h].id == id
  }

  /** The chunks carry the frame of `m` to a link, in pieces of any size and after any number of silent
      ticks; if the link holds characters they are not a message the silent ticks would report, and they
      leave room for the first piece. */
  ghost predicate Carries(l: Link, chunks: seq<seq<byte>>, m: F.Msg, reload: nat)
    requires |l.live| <= F.MAX_LENGTH
  {
    exists k :: CarriesFrom(l, chunks, m, reload, k)
  }

  ghost predicate CarriesFrom(l: Link, chunks: seq<seq<byte>>, m: F.Msg, reload: nat, k: int)
    requires |l.live| <= F.MAX_LENGTH
  {
    && 0 <= k < |chunks| && (forall q :: 0 <= q < k ==> chunks[q] == []) && S.Arrives(m, chunks[k..], reload)
    && (l.live == []
        || ((k == 0 || F.Receive(l.live) == None) && |chunks[k]| <= Room(S.After(l, chunks[..k], reload))))
  }

  lemma SilentTick(l: Link, reload: nat)
    requires |l.live| <= F.MAX_LENGTH && F.Receive(l.live) == None
    ensures F.Receive(Tick(l, [], reload).live) == None && F.Receive(Recv(Tick(l, [], reload)).live) == None
    ensures l.live == [] ==> Recv(Tick(l, [], reload)).live == []
  {
  }

  lemma NothingInNothing()
    ensures F.Receive([]) == None
  {
  }

  /** Silent ticks report nothing of a link that holds no message. */
  lemma {:induction false} SilentTicks(l: Link, chunks: seq<seq<byte>>, reload: nat)
    requires |l.live| <= F.MAX_LENGTH && F.Receive(l.live) == None
    requires forall q :: 0 <= q < |chunks| ==> chunks[q] == []
    ensures F.Receive(S.After(l, chunks, reload).live) == None
    ensures l.live == [] ==> S.After(l, chunks, reload).live == []
    ensures forall k :: 0 < k <= |chunks| ==> S.Reported(l, chunks[..k], reload) == None
  {
    hide Tick, Recv, F.Receive, F.CompleteLength;
    if chunks != [] {
      var n := |chunks| - 1;
      SilentTicks(l, chunks[..n], reload);
      SilentTick(S.After(l, chunks[..n], reload), reload);
      assert chunks[..|chunks|] == chunks;
      forall k | 0 < k <= |chunks|
        ensures S.Reported(l, chunks[..k], reload) == None
      {
        if k <= n {
          assert chunks[..n][..k] == chunks[..k];
        }
      }
    }
  }

  lemma HeardAfterSilence(l: Link, silence: seq<seq<byte>>, frame: seq<seq<byte>>, m: F.Msg, reload: nat)
    requires |l.live| <= F.MAX_LENGTH && frame != []
    requires forall k :: 0 < k <= |silence| ==> S.Reported(l, silence[..k], reload) == None
    requires var l' := S.After(l, silence, reload);
             && S.Reported(l', frame, reload) == Some(m)
             && forall k :: 0 < k < |frame| ==> S.Reported(l', frame[..k], reload) == None
    ensures Hears(l, silence + frame, m, reload)
  {
    hide S.Reported, S.After, Listening.Listen;
    var chunks := silence + frame;
    S.AfterSplit(l, silence, frame, reload);
    forall j | 0 < j < |chunks|
      ensures S.Reported(l, chunks[..j], reload) == None
    {
      if j <= |silence| {
        assert silence[..j] == chunks[..j];
      } else {
        assert chunks[..j] == silence + frame[..j - |silence|];
        S.AfterSplit(l, silence, frame[..j - |silence|], reload);
      }
    }
    Listening.ListenToLast(l, chunks, reload);
  }

  lemma CarriedIsHeard(l: Link, chunks: seq<seq<byte>>, m: F.Msg, reload: nat)
    requires |l.live| <= F.MAX_LENGTH && Carries(l, chunks, m, reload)
    ensures chunks != [] && Hears(l, chunks, m, reload)
  {
    hide S.Reported, S.After, S.Arrives, Room, F.Receive, Hears;
    var k: int :| CarriesFrom(l, chunks, m, reload, k);
    var silence, frame := chunks[..k], chunks[k..];
    assert silence + frame == chunks;
    var l' := S.After(l, silence, reload);
    NothingInNothing();
    if k == 0 {
      S.NothingDelivered(l, reload);
    } else {
      SilentTicks(l, silence, reload);
    }
    if l.live == [] {
      S.FirstChunkFits(m, frame, reload, l'.timeOut);
    }
    S.Reassembly(l', m, frame, reload);
    HeardAfterSilence(l, silence, frame, m, reload);
  }

  // A try of the master's command.

  lemma AskedRequest(m: M.Master)
    requires M.Sound(m) && m.cmd != 0 && m.retryCount > 0
    ensures M.Request(m) != [] && M.Request(M.Tried(m)) == M.Request(m) && M.Sound(M.Tried(m))
    ensures M.Tried(m) == m.(retryCount := m.retryCount - 1)
  {
  }

  /** What the link hears in a try with these polls. */
  ghost function HeardInTry<A(!new)>(n: Node<A>, i: nat, h: nat, polls: seq<seq<byte>>): Listening.Heard
    requires AboutToAsk(n, i, h) && n.timeBase > 0
  {
    Listening.Listen(LinkAfterRequest(n, i, h), polls, Reload(n.timeBase))
  }

  /** The calls of a try: three for the request, and the polls until something is reported. */
  ghost function TryCalls<A(!new)>(n: Node<A>, i: nat, h: nat, polls: seq<seq<byte>>, rest: seq<byte>): seq<NodeCall>
    requires AboutToAsk(n, i, h) && n.timeBase > 0
  {
    Silent(i, 3, rest) + Polls(i, Listening.Made(LinkAfterRequest(n, i, h), polls, Reload(n.timeBase)), rest)
  }

  /** The node after a try in which the link ended up as `l` and heard `msg`, with `left` units of the
      timeout left. */
  ghost function TryOver<A(!new)>(n: Node<A>, i: nat, h: nat, l: Link, msg: Option<F.Msg>, left: nat): Node<A>
    requires AboutToAsk(n, i, h) && (msg.Some? ==> 2 <= |msg.value.pdu| <= 60)
  {
    var m, s := n.masters[h], Route(n.gw.servers, n.masters[h].slaveId);
    var c := Ready(n.gw.clients[i], m, s);
    AskedRequest(m);
    WithLink(n, n.gw.servers[s].handler, l).(
      gw := WithClient(n.gw, i, Released(c, msg, left)),
      masters := n.masters[h := ToldMaster(M.Tried(m), c.buffer, msg)])
  }

  /** The polls last as long as the master waits, or until a message of two bytes or more is heard. */
  ghost predicate EnoughPolls<A(!new)>(n: Node<A>, i: nat, h: nat, polls: seq<seq<byte>>)
    requires AboutToAsk(n, i, h)
  {
    && n.timeBase > 0 && 0 < |polls| <= n.masters[h].respTimeout / n.timeBase + 1
    && match HeardInTry(n, i, h, polls).msg
       case None => |polls| == n.masters[h].respTimeout / n.timeBase + 1
       case Some(m) => |m.pdu| >= 2
  }

  /** MAIN: a whole try through the gateway, whatever the link holds and the line brings: the request goes
      out once, first of all; then the client listens on the link the request was written over, until it
      hears something or its timeout is over; and nothing else on the device changes. */
  lemma TryOnLink<A(!new)>(n: Node<A>, i: nat, h: nat, polls: seq<seq<byte>>, rest: seq<byte>) returns (left: nat)
    requires AboutToAsk(n, i, h) && |rest| == BUFFER_SIZE && EnoughPolls(n, i, h, polls)
    ensures var heard, calls := HeardInTry(n, i, h, polls), TryCalls(n, i, h, polls, rest);
            && (heard.msg.Some? ==> |heard.msg.value.pdu| <= 60)
            && NodeInv(n) && CallsOk(Silent(i, 3, rest)) && CallsOk(calls)
            && SentBy(n, Silent(i, 3, rest)) == SentBy(n, calls) == RequestSent(n, i, h)
            && NodeRun(n, calls) == TryOver(n, i, h, heard.link, heard.msg, left)
  {
    hide NodeInv, AboutToAsk, WaitsForLink, AfterRequest, TryOver, WaitOver, NodeRun, SentBy, RequestSent,
         LinkAfterRequest, Silent, Polls, Listening.Listen;
    RequestGoesOut(n, i, h, rest);
    var n3 := AfterRequest(n, i, h);
    var t := TryStartsWait(n, i, h);
    WaitOnLink(n3, i, h, t, polls, rest);
    var made, heard := Listening.Made(LinkAfterRequest(n, i, h), polls, Reload(n.timeBase)), HeardInTry(n, i, h, polls);
    RunAppend(n, Silent(i, 3, rest), Polls(i, made, rest));
    left := n3.gw.clients[i].timeout + 1 - |made|;
    TryIsWait(n, i, h, t, heard.link, heard.msg, left);
  }

  /** The wait of a try. */
  lemma TryStartsWait<A(!new)>(n: Node<A>, i: nat, h: nat) returns (t: nat)
    requires AboutToAsk(n, i, h) && n.timeBase > 0 && NodeInv(AfterRequest(n, i, h))
    ensures h < |n.masters|
    ensures var n3 := AfterRequest(n, i, h);
            && n3.timeBase == n.timeBase && WaitsForLink(n3, i, h, t) && t < |n3.links|
            && n3.links[t].link == LinkAfterRequest(n, i, h)
            && i < |n3.gw.clients| && n3.gw.clients[i].timeout == n.masters[h].respTimeout / n.timeBase
  {
    hide Own, DistinctSlaves, Exclusive, Contract, M.Request, M.Tried, Route, M.Sound, Overlay, Send;
    t := n.gw.servers[Route(n.gw.servers, n.masters[h].slaveId)].handler;
  }

  lemma TryIsWait<A(!new)>(n: Node<A>, i: nat, h: nat, t: nat, l: Link, msg: Option<F.Msg>, left: nat)
    requires AboutToAsk(n, i, h) && n.timeBase > 0 && NodeInv(AfterRequest(n, i, h))
    requires WaitsForLink(AfterRequest(n, i, h), i, h, t) && (msg.Some? ==> 2 <= |msg.value.pdu| <= 60)
    ensures WaitOver(AfterRequest(n, i, h), i, h, t, l, msg, left) == TryOver(n, i, h, l, msg, left)
  {
    hide Own, DistinctSlaves, Exclusive, Contract, M.Request, M.Tried, Route, M.Sound, Overlay, Send, ToldMaster,
         Copied;
  }

  /** Client `i` is idle and server `s` is free. */
  ghost predicate Rests<A(!new)>(n: Node<A>, i: nat, s: int) {
    && i < |n.gw.clients| && n.gw.clients[i].state == Idle
    && 0 <= s < |n.gw.servers| && !n.gw.servers[s].busy
  }

  /** After a try the client rests, and can ask again if the command is pending and has tries left. */
  lemma AsksAgain<A(!new)>(n: Node<A>, i: nat, h: nat, l: Link, msg: Option<F.Msg>, left: nat)
    requires AboutToAsk(n, i, h) && (msg.Some? ==> 2 <= |msg.value.pdu| <= 60) && |l.live| <= F.MAX_LENGTH
    requires NodeInv(TryOver(n, i, h, l, msg, left))
    ensures h < |n.masters| && i < |n.gw.clients|
    ensures var m, n' := n.masters[h], TryOver(n, i, h, l, msg, left);
            && M.Sound(m) && m.cmd != 0 && m.retryCount > 0 && M.Sound(M.Tried(m))
            && |n.gw.clients[i].buffer| == BUFFER_SIZE
            && n'.masters == n.masters[h := ToldMaster(M.Tried(m), Overlay(n.gw.clients[i].buffer, M.Request(m)), msg)]
            && Rests(n', i, Route(n.gw.servers, m.slaveId)) && ServerLink(n', m.slaveId) == Some(l)
            && (n'.masters[h].cmd != 0 && n'.masters[h].retryCount > 0 && M.Request(n'.masters[h]) == M.Request(m)
                ==> AboutToAsk(n', i, h))
  {
    hide Own, DistinctSlaves, Exclusive, Contract, Route, Overlay, Send, M.Request, M.Tried, M.Response, Fits;
    AskedRequest(n.masters[h]);
    S.OverlayStarts(n.gw.clients[i].buffer, M.Request(n.masters[h]));
    KeepsSlaveId(M.Tried(n.masters[h]), Overlay(n.gw.clients[i].buffer, M.Request(n.masters[h])), msg);
  }

  lemma KeepsSlaveId(m: M.Master, buffer: seq<byte>, msg: Option<F.Msg>)
    requires M.Sound(m) && |buffer| == BUFFER_SIZE && (msg.Some? ==> |msg.value.pdu| <= 60)
    ensures ToldMaster(m, buffer, msg).slaveId == m.slaveId
  {
  }

  /** MAIN: a try whose response is not heard, because none comes or because none is reported, sends the
      request once and leaves the client idle, the server free, and the command pending with a try less; and
      it leaves the link as its polls leave it, so that the next try can be sent over it. */
  lemma UnansweredTry<A(!new)>(n: Node<A>, i: nat, h: nat, polls: seq<seq<byte>>, rest: seq<byte>)
    requires AboutToAsk(n, i, h) && |rest| == BUFFER_SIZE
    requires EnoughPolls(n, i, h, polls) && HeardInTry(n, i, h, polls).msg == None
    ensures var m, s, calls := n.masters[h], Route(n.gw.servers, n.masters[h].slaveId),
            Silent(i, 3, rest) + Polls(i, polls, rest);
            && CallsOk(calls) && SentBy(n, calls) == RequestSent(n, i, h)
            && var n' := NodeRun(n, calls);
               && n'.masters == n.masters[h := m.(retryCount := m.retryCount - 1)] && Rests(n', i, s)
               && ServerLink(n', m.slaveId) == Some(HeardInTry(n, i, h, polls).link)
               && (m.retryCount > 1 ==> AboutToAsk(n', i, h))
  {
    hide Own, DistinctSlaves, Exclusive, Contract, NodeStep, F.Frame, M.Request, M.Tried, NodeRun, SentBy, Route,
         Silent, Polls, Overlay, Send, Listening.Listen, Fits, TryOver, AboutToAsk, LinkAfterRequest, RequestSent;
    var left := TryOnLink(n, i, h, polls, rest);
    var heard := HeardInTry(n, i, h, polls);
    AllMade(LinkAfterRequest(n, i, h), polls, Reload(n.timeBase));
    AsksAgain(n, i, h, heard.link, heard.msg, left);
    AskedRequest(n.masters[h]);
  }

  lemma AllMade(l: Link, polls: seq<seq<byte>>, reload: nat)
    requires |l.live| <= F.MAX_LENGTH && Listening.Listen(l, polls, reload).rest == []
    ensures Listening.Made(l, polls, reload) == polls
  {
    hide Listening.Listen;
    assert Listening.Made(l, polls, reload) + [] == polls;
  }

  lemma CarriedIsEnough<A(!new)>(n: Node<A>, i: nat, h: nat, chunks: seq<seq<byte>>, msg: F.Msg)
    requires AboutToAsk(n, i, h) && n.timeBase > 0 && |msg.pdu| >= 2
    requires Carries(LinkAfterRequest(n, i, h), chunks, msg, Reload(n.timeBase))
    requires |chunks| <= n.masters[h].respTimeout / n.timeBase + 1
    ensures EnoughPolls(n, i, h, chunks)
    ensures HeardInTry(n, i, h, chunks).msg == Some(msg) && HeardInTry(n, i, h, chunks).rest == []
  {
    hide NodeInv, Asking, M.Sound, LinkAfterRequest, Carries, Listening.Listen;
    CarriedIsHeard(LinkAfterRequest(n, i, h), chunks, msg, Reload(n.timeBase));
  }

  /** The master's side of the trip: request out, answer in. */
  lemma MasterSide<A(!new)>(n: Node<A>, i: nat, h: nat, chunks: seq<seq<byte>>, reply: seq<byte>, rest: seq<byte>)
    requires AboutToAsk(n, i, h) && |rest| == BUFFER_SIZE && n.timeBase > 0 && 2 <= |reply| <= 60
    requires Carries(LinkAfterRequest(n, i, h), chunks, F.Msg(n.masters[h].slaveId, reply), Reload(n.timeBase))
    requires |chunks| <= n.masters[h].respTimeout / n.timeBase + 1
    ensures var m, s, calls := n.masters[h], Route(n.gw.servers, n.masters[h].slaveId),
            Silent(i, 3, rest) + Polls(i, chunks, rest);
            var held := E.Held(n.gw.clients[i].buffer, m, F.Msg(m.slaveId, reply));
            && CallsOk(Silent(i, 3, rest)) && CallsOk(calls) && |held| == BUFFER_SIZE && M.Sound(M.Tried(m))
            && SentBy(n, Silent(i, 3, rest)) == SentBy(n, calls) == RequestSent(n, i, h)
            && var n' := NodeRun(n, calls);
               && n'.masters == n.masters[h := M.Response(M.Tried(m), m.slaveId, held, |reply|)] && Rests(n', i, s)
  {
    var m, msg := n.masters[h], F.Msg(n.masters[h].slaveId, reply);
    hide Own, DistinctSlaves, Exclusive, Contract, NodeStep, F.Frame, M.Request, M.Tried, M.Response, NodeRun,
         SentBy, Route, Carries, Silent, Polls, Overlay, Send, Listening.Listen, Fits, TryOver, AboutToAsk,
         LinkAfterRequest, RequestSent, E.Held, ToldMaster;
    CarriedIsEnough(n, i, h, chunks, msg);
    var left := TryOnLink(n, i, h, chunks, rest);
    AllMade(LinkAfterRequest(n, i, h), chunks, Reload(n.timeBase));
    var heard := HeardInTry(n, i, h, chunks);
    AsksAgain(n, i, h, heard.link, heard.msg, left);
    ToldTheReply(m, n.gw.clients[i].buffer, reply);
  }

  lemma ToldTheReply(m: M.Master, before: seq<byte>, reply: seq<byte>)
    requires M.Sound(m) && m.cmd != 0 && m.retryCount > 0 && |before| == BUFFER_SIZE && |reply| <= 60
    ensures M.Sound(M.Tried(m)) && |Overlay(before, M.Request(m))| == BUFFER_SIZE
    ensures var held := E.Held(before, m, F.Msg(m.slaveId, reply));
            && |held| == BUFFER_SIZE
            && ToldMaster(M.Tried(m), Overlay(before, M.Request(m)), Some(F.Msg(m.slaveId, reply))) ==
               M.Response(M.Tried(m), m.slaveId, held, |reply|)
  {
    hide M.Response, M.Request;
    AskedRequest(m);
  }

  // What a client still holds when its master has no command.

  /** Client `i` of master `h` is idle, its master has no command, and the message it still holds is routed to a
      free link that would write it. */
  ghost predicate HoldsOldMessage<A(!new)>(n: Node<A>, i: nat, h: nat) {
    && NodeInv(n) && i < TOTAL_CLIENTS && h < |n.masters| && n.masters[h].cmd == 0
    && var c := n.gw.clients[i];
       && c.inUse && c.kind == MasterModule && c.handler == h && c.state == Idle && 1 <= c.size <= |c.buffer|
       && Fits(F.Msg(c.id, c.buffer[..c.size]))
       && var s := Route(n.gw.servers, c.id);
          && s >= 0 && n.gw.servers[s].kind == TransportModule && !n.gw.servers[s].busy
  }

  /** The message a client holds, on its way out. */
  ghost function OldMessageSent<A(!new)>(n: Node<A>, i: nat, h: nat): seq<Sent>
    requires HoldsOldMessage(n, i, h)
  {
    var c := n.gw.clients[i];
    [Sent(n.gw.servers[Route(n.gw.servers, c.id)].handler, F.Frame(F.Msg(c.id, c.buffer[..c.size])))]
  }

  /** A master without a command leaves its client's message as it is, and the client routes it. */
  lemma MasterAsksNothing<A(!new)>(n: Node<A>, i: nat, h: nat, inp: Input)
    requires HoldsOldMessage(n, i, h) && InputOk(inp)
    ensures NodeStep(n, i, inp) == Stepped(n.(gw := WithClient(n.gw, i, n.gw.clients[i].(state := Routing))), [])
  {
    hide Own, DistinctSlaves, Exclusive, Contract, M.Sound, M.Request, Route, Fits;
    assert n.masters[h := n.masters[h]] == n.masters;
  }

  /** MAIN: the next three calls of such a client send the old message once more. */
  lemma OldMessageSentAgain<A(!new)>(n: Node<A>, i: nat, h: nat, rest: seq<byte>)
    requires HoldsOldMessage(n, i, h) && |rest| == BUFFER_SIZE
    ensures NodeInv(n) && CallsOk(Silent(i, 3, rest)) && SentBy(n, Silent(i, 3, rest)) == OldMessageSent(n, i, h)
  {
    hide Own, DistinctSlaves, Exclusive, Contract, NodeStep, F.Frame, Send, M.Request, M.Sound, NodeRun, SentBy,
         Route, Fits;
    var inp := Input([], rest);
    var call := ClientCall(i, inp);
    assert Silent(i, 3, rest) == [call] + [call] + [call];
    OneCall(n, call);
    MasterAsksNothing(n, i, h, inp);
    NodeStepKeepsInv(n, i, inp);
    var n1 := NodeStep(n, i, inp).node;
    OneCall(n1, call);
    Routed(n1, i, inp);
    NodeStepKeepsInv(n1, i, inp);
    var n2 := NodeStep(n1, i, inp).node;
    OneCall(n2, call);
    SentToLink(n2, i, inp);
    RunAppend(n, [call], [call]);
    RunAppend(n, [call] + [call], [call]);
  }

  /** MAIN: a single write that its response completes goes out a second time: the response repeats the
      request, the client still holds it, and its next three calls send it. */
  lemma SingleWriteSentAgain<A(!new)>(n: Node<A>, i: nat, h: nat, chunks: seq<seq<byte>>, rest: seq<byte>)
    requires AboutToAsk(n, i, h) && |rest| == BUFFER_SIZE && n.timeBase > 0
    requires n.masters[h].cmd in {WRITE_SINGLE_COIL, WRITE_SINGLE_REGISTER}
    requires Carries(LinkAfterRequest(n, i, h), chunks, RequestOf(n.masters[h]),
             Reload(n.timeBase))
    requires |chunks| <= n.masters[h].respTimeout / n.timeBase + 1
    ensures var answered := Silent(i, 3, rest) + Polls(i, chunks, rest);
            && CallsOk(answered) && CallsOk(answered + Silent(i, 3, rest))
            && NodeRun(n, answered).masters == n.masters[h := M.Complete(M.Tried(n.masters[h]).(exc := E_NO_ERROR))]
            && SentBy(n, answered) == RequestSent(n, i, h)
            && SentBy(n, answered + Silent(i, 3, rest)) == RequestSent(n, i, h) + RequestSent(n, i, h)
  {
    var m, msg := n.masters[h], RequestOf(n.masters[h]);
    hide NodeInv, Asking, NodeStep, F.Frame, M.Request, M.Tried, M.Response, M.Complete, NodeRun, SentBy, Route,
         Carries, Silent, Polls, Overlay, Send, Listening.Listen, Fits, TryOver, AboutToAsk, LinkAfterRequest,
         RequestSent;
    AsksSingleWrite(n, i, h);
    CarriedIsEnough(n, i, h, chunks, msg);
    var left := TryOnLink(n, i, h, chunks, rest);
    AllMade(LinkAfterRequest(n, i, h), chunks, Reload(n.timeBase));
    var heard := HeardInTry(n, i, h, chunks);
    SingleWriteOver(n, i, h, heard.link, left);
    var n' := TryOver(n, i, h, heard.link, heard.msg, left);
    OldMessageSentAgain(n', i, h, rest);
    RunAppend(n, Silent(i, 3, rest) + Polls(i, chunks, rest), Silent(i, 3, rest));
  }

  lemma AsksSingleWrite<A(!new)>(n: Node<A>, i: nat, h: nat)
    requires AboutToAsk(n, i, h) && n.masters[h].cmd in {WRITE_SINGLE_COIL, WRITE_SINGLE_REGISTER}
    ensures |M.Request(n.masters[h])| == 5
  {
    E.SingleRequest(n.masters[h]);
  }

  /** The client after the response to a single write. */
  lemma SingleWriteOver<A(!new)>(n: Node<A>, i: nat, h: nat, l: Link, left: nat)
    requires AboutToAsk(n, i, h) && n.masters[h].cmd in {WRITE_SINGLE_COIL, WRITE_SINGLE_REGISTER}
    requires |M.Request(n.masters[h])| == 5
    requires NodeInv(TryOver(n, i, h, l, Some(RequestOf(n.masters[h])), left))
    ensures var m := n.masters[h];
            var n' := TryOver(n, i, h, l, Some(RequestOf(m)), left);
            && n'.masters == n.masters[h := M.Complete(M.Tried(m).(exc := E_NO_ERROR))]
            && HoldsOldMessage(n', i, h) && OldMessageSent(n', i, h) == RequestSent(n, i, h)
  {
    hide Own, DistinctSlaves, Exclusive, Contract, Route, Send, M.Request, M.Tried, M.Response, F.Frame, Overlay;
    var m := n.masters[h];
    var before := Overlay(n.gw.clients[i].buffer, M.Request(m));
    AskedRequest(m);
    S.OverlayStarts(n.gw.clients[i].buffer, M.Request(m));
    CopiedStarts(before, RequestOf(m));
    E.SingleResponse(M.Tried(m), Copied(before, RequestOf(m)));
  }

  /** The slave's side of the trip: request in, answer out. */
  lemma SlaveSide<A(!new)>(n: Node<A>, j: nat, h: nat, chunks: seq<seq<byte>>, id: byte, request: seq<byte>,
      rest: seq<byte>)
    requires NodeInv(n) && j < TOTAL_CLIENTS && h < |n.slaves| && |rest| == BUFFER_SIZE
    requires Serving(n, j, h, id) && 1 <= |request| <= 60
    requires |n.links[n.gw.clients[j].handler].link.live| <= F.MAX_LENGTH
    requires Carries(n.links[n.gw.clients[j].handler].link, chunks, F.Msg(id, request), Reload(n.timeBase))
    ensures CallsOk(Polls(j, chunks, rest)) && CallsOk(Silent(j, 3, rest))
    ensures var c, sl, calls := n.gw.clients[j], n.slaves[h], Polls(j, chunks, rest) + Silent(j, 3, rest);
            var n', served := NodeRun(n, calls), Serve(sl.cmd, sl.app, request);
            && h < |n'.slaves| && n'.slaves[h].app == served.app && n'.gw.clients[j].state == Idle
            && SentBy(n, calls) == [Sent(c.handler, F.Frame(F.Msg(id, served.reply)))]
  {
    hide Own, DistinctSlaves, Exclusive, Contract, NodeStep, F.Frame, Serve, NodeRun, SentBy, Route, Carries, Hears,
         Silent, Polls, Copied;
    var c := n.gw.clients[j];
    CarriedIsHeard(n.links[c.handler].link, chunks, F.Msg(id, request), Reload(n.timeBase));
    RequestHeard(n, j, chunks, F.Msg(id, request), rest);
    var n1 := NodeRun(n, Polls(j, chunks, rest));
    CopiedStarts(c.buffer, F.Msg(id, request));
    Answered(n1, j, h, rest);
    RunAppend(n, Polls(j, chunks, rest), Silent(j, 3, rest));
  }

  lemma CopiedStarts(buffer: seq<byte>, m: F.Msg)
    requires |buffer| == BUFFER_SIZE && |m.pdu| <= 60
    ensures |Copied(buffer, m)| == BUFFER_SIZE && Copied(buffer, m)[..|m.pdu|] == m.pdu
  {
  }

  /** Client `i` of device `a` asks for its master `h`, and client `j` of device `b` serves slave `g`,
      the one asked. */
  ghost predicate Joined<A(!new), B(!new)>(a: Node<A>, i: nat, h: nat, b: Node<B>, j: nat, g: nat) {
    && AboutToAsk(a, i, h) && M.Request(a.masters[h]) != []
    && NodeInv(b) && j < TOTAL_CLIENTS && g < |b.slaves| && Serving(b, j, g, a.masters[h].slaveId)
    && |b.links[b.gw.clients[j].handler].link.live| <= F.MAX_LENGTH
  }

  ghost function Asked<A(!new), B(!new)>(a: Node<A>, i: nat, h: nat, b: Node<B>, j: nat, g: nat): F.Msg
    requires Joined(a, i, h, b, j, g)
  {
    RequestOf(a.masters[h])
  }

  ghost function Answer<A(!new), B(!new)>(a: Node<A>, i: nat, h: nat, b: Node<B>, j: nat, g: nat): F.Msg
    requires Joined(a, i, h, b, j, g)
  {
    F.Msg(a.masters[h].slaveId, Serve(b.slaves[g].cmd, b.slaves[g].app, M.Request(a.masters[h])).reply)
  }

  /** The chunks carry the request to `b` and, within the response timeout of the master, the answer to `a`. */
  ghost predicate Carried<A(!new), B(!new)>(a: Node<A>, i: nat, h: nat, b: Node<B>, j: nat, g: nat,
      toB: seq<seq<byte>>, toA: seq<seq<byte>>)
    requires Joined(a, i, h, b, j, g)
  {
    && a.timeBase > 0 && b.timeBase > 0 && |toA| <= a.masters[h].respTimeout / a.timeBase + 1
    && Carries(b.links[b.gw.clients[j].handler].link, toB, Asked(a, i, h, b, j, g), Reload(b.timeBase))
    && Carries(LinkAfterRequest(a, i, h), toA, Answer(a, i, h, b, j, g), Reload(a.timeBase))
  }

  /** MAIN: a command of a master on device `a` to a slave on device `b`, through both gateways and both
      links, with request and response in pieces of any size: `a` writes exactly the frame of the
      request, before anything comes in, `b` exactly the frame of the answer, and afterwards master and
      slave are as after the exchange of `EndToEnd`, with both clients idle and the server of `a` free. */
  lemma CommandCarriedOut<A(!new), B(!new)>(a: Node<A>, i: nat, h: nat, b: Node<B>, j: nat, g: nat,
      toB: seq<seq<byte>>, toA: seq<seq<byte>>, rest: seq<byte>)
    requires Joined(a, i, h, b, j, g) && Carried(a, i, h, b, j, g, toB, toA) && |rest| == BUFFER_SIZE
    requires |Asked(a, i, h, b, j, g).pdu| <= 60 && |Answer(a, i, h, b, j, g).pdu| <= 60
    ensures var callsA, callsB := Silent(i, 3, rest) + Polls(i, toA, rest), Polls(j, toB, rest) + Silent(j, 3, rest);
            var s := Route(a.gw.servers, a.masters[h].slaveId);
            && CallsOk(callsA) && CallsOk(callsB) && CallsOk(Silent(i, 3, rest)) && M.Sound(M.Tried(a.masters[h]))
            && SentBy(a, Silent(i, 3, rest)) == SentBy(a, callsA) ==
               [Sent(a.gw.servers[s].handler, F.Frame(Asked(a, i, h, b, j, g)))]
            && SentBy(b, callsB) == [Sent(b.gw.clients[j].handler, F.Frame(Answer(a, i, h, b, j, g)))]
            && var a', b', x := NodeRun(a, callsA), NodeRun(b, callsB),
                                E.Exchange(M.Tried(a.masters[h]), b.slaves[g].cmd, b.slaves[g].app,
                                    a.gw.clients[i].buffer);
               && a'.masters == a.masters[h := x.master] && g < |b'.slaves| && b'.slaves[g].app == x.app
               && a'.gw.clients[i].state == Idle && !a'.gw.servers[s].busy && b'.gw.clients[j].state == Idle
  {
    hide Own, DistinctSlaves, Exclusive, Contract, NodeStep, F.Frame, M.Request, M.Tried, M.Response, NodeRun,
         SentBy, Route, Carries, Silent, Polls, Overlay, Serve, ServerLink, Serving, M.Sound, E.Exchange, E.Held;
    var m, sl := a.masters[h], b.slaves[g];
    assert SlaveOk(sl);
    AskedRequest(m);
    ReplyShape(sl.cmd, sl.app, M.Request(m), m.slaveId);
    SlaveSide(b, j, g, toB, m.slaveId, M.Request(m), rest);
    MasterSide(a, i, h, toA, Serve(sl.cmd, sl.app, M.Request(m)).reply, rest);
    E.ExchangeByLength(M.Tried(m), sl.cmd, sl.app, a.gw.clients[i].buffer);
    HeldOfTried(m, a.gw.clients[i].buffer, Answer(a, i, h, b, j, g));
  }

  lemma HeldOfTried(m: M.Master, before: seq<byte>, rsp: F.Msg)
    requires M.Sound(m) && m.cmd != 0 && m.retryCount > 0 && |before| == BUFFER_SIZE
    ensures M.Sound(M.Tried(m)) && E.Held(before, M.Tried(m), rsp) == E.Held(before, m, rsp)
  {
    AskedRequest(m);
  }

  /** The command of `m` over the bank `regs` has been carried out and completed. */
  ghost predicate ReadWriteDone(m: M.Master, m': M.Master, regs: Bank, regs': Bank) {
    && m.quantityW <= |m.wordsW| && m.quantityR <= |m.wordsR| && m.startR + m.quantityR <= |regs'|
    && E.WrittenBy(m, regs, regs')
    && E.CallerHas(m.wordsR, m'.wordsR, regs'[m.startR..m.startR + m.quantityR])
    && m'.cmd == 0 && m'.log == m.log + [M.Completion(m.callback, m.slaveId, m.cmd, E_NO_ERROR)]
  }

  /** MAIN: over the two gateways a read-write of up to 29 registers read and 25 written leaves the slave's
      bank with the values written, the master's caller with the registers as they are after that write,
      and the command completed without error by one signal. */
  lemma ReadWriteCarriedOut<A(!new)>(a: Node<A>, i: nat, h: nat, b: Node<Bank>, j: nat, g: nat,
      toB: seq<seq<byte>>, toA: seq<seq<byte>>, rest: seq<byte>)
    requires Joined(a, i, h, b, j, g) && Carried(a, i, h, b, j, g, toB, toA) && |rest| == BUFFER_SIZE
    requires b.slaves[g].cmd == BANK && a.masters[h].cmd == READ_WRITE_MULTIPLE_REGISTERS
    requires var m, regs := a.masters[h], b.slaves[g].app;
             && 1 <= m.quantityR <= 29 && 1 <= m.quantityW <= 25
             && m.startR + m.quantityR <= |regs| && m.startW + m.quantityW <= |regs|
    ensures var callsA, callsB := Silent(i, 3, rest) + Polls(i, toA, rest), Polls(j, toB, rest) + Silent(j, 3, rest);
            && CallsOk(callsA) && CallsOk(callsB)
            && h < |NodeRun(a, callsA).masters| && g < |NodeRun(b, callsB).slaves|
            && ReadWriteDone(a.masters[h], NodeRun(a, callsA).masters[h], b.slaves[g].app,
               NodeRun(b, callsB).slaves[g].app)
  {
    hide NodeInv, Joined, Carried, Carries, NodeStep, F.Frame, M.Request, M.Response, NodeRun, SentBy, Route, Silent,
         Polls, Serve, E.Exchange, E.Stored, E.CallerHas;
    JoinedAsks(a, i, h, b, j, g);
    var m, regs := a.masters[h], b.slaves[g].app;
    AskedRequest(m);
    LengthsOfReadWrite(m, regs);
    CommandCarriedOut(a, i, h, b, j, g, toB, toA, rest);
    E.ReadWriteEndToEnd(M.Tried(m), regs, a.gw.clients[i].buffer);
  }

  lemma JoinedAsks<A(!new), B(!new)>(a: Node<A>, i: nat, h: nat, b: Node<B>, j: nat, g: nat)
    requires Joined(a, i, h, b, j, g)
    ensures h < |a.masters| && g < |b.slaves|
    ensures var m := a.masters[h]; M.Sound(m) && m.cmd != 0 && m.retryCount > 0
    ensures i < |a.gw.clients| && |a.gw.clients[i].buffer| == BUFFER_SIZE
  {
  }

  lemma LengthsOfReadWrite(m: M.Master, regs: Bank)
    requires M.Sound(m) && m.cmd == READ_WRITE_MULTIPLE_REGISTERS
    requires 1 <= m.quantityR <= 29 && 1 <= m.quantityW <= 25
    requires m.startR + m.quantityR <= |regs| && m.startW + m.quantityW <= |regs|
    ensures |M.Request(m)| == 10 + 2 * m.quantityW && |Serve(BANK, regs, M.Request(m)).reply| == 2 + 2 * m.quantityR
  {
    hide M.Request, Serve;
    E.ReadWriteRequest(m);
    E.RequestWellFormed(m);
    ReadWriteSeesOwnWrite(regs, M.Request(m));
  }
}
