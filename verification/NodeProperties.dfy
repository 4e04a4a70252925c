/** No cross-talk: what a call for one client does to the others, and whose request a reply answers. */
module NodeProperties {
  import opened Bytes
  import opened Modbus
  import F = AsciiFrame
  import opened AsciiLink
  import opened Slave
  import opened SlaveProperties
  import M = Master
  import opened Gateway
  import opened Node

  /** Each slave handle was added once. */
  predicate DistinctSlaves(servers: seq<Server>) {
    forall s, t :: 0 <= s < t < |servers| && IsSlave(servers[s]) && IsSlave(servers[t])
        ==> servers[s].handler != servers[t].handler
  }

  predicate IsSlave(s: Server) {
    s.inUse && s.kind == SlaveModule
  }

  /** Client `i` waits for the slave object `h`. */
  predicate WaitsForSlave<A>(n: Node<A>, i: nat, h: int)
    requires Shape(n.gw) && i < TOTAL_CLIENTS
  {
    var c := n.gw.clients[i];
    c.state == Waiting && n.gw.servers[c.indexServer].kind == SlaveModule && n.gw.servers[c.indexServer].handler == h
  }

  /** A slave somebody waits for points to that client's buffer and knows the size of its request. */
  ghost predicate Own<A(!new)>(n: Node<A>)
    requires Sane(n)
  {
    forall i, h :: 0 <= i < TOTAL_CLIENTS && 0 <= h < |n.slaves| && WaitsForSlave(n, i, h) ==>
      n.slaves[h].buf == i && n.slaves[h].size == n.gw.clients[i].size >= REQ_PDU_MINLENGTH
  }

  ghost predicate NodeInv<A(!new)>(n: Node<A>) {
    Sane(n) && Inv(n.gw) && DistinctSlaves(n.gw.servers) && Own(n)
  }

  /** The slots of the servers, without their busy flags. */
  predicate SameSlots(ss: seq<Server>, ss': seq<Server>) {
    |ss'| == |ss| && forall s :: 0 <= s < |ss| ==> ss'[s].(busy := ss[s].busy) == ss[s]
  }

  /** What a call for client `i` leaves alone. */
  ghost predicate Framed<A(!new)>(n: Node<A>, n': Node<A>, i: nat)
    requires Sane(n) && i < TOTAL_CLIENTS
  {
    && |n'.gw.clients| == |n.gw.clients| && |n'.slaves| == |n.slaves|
    && |n'.masters| == |n.masters| && |n'.links| == |n.links|
    && n'.timeBase == n.timeBase && n'.gw.inUse == n.gw.inUse
    && (forall j :: 0 <= j < TOTAL_CLIENTS && j != i ==> n'.gw.clients[j] == n.gw.clients[j])
    && SameSlots(n.gw.servers, n'.gw.servers)
    && (forall h :: 0 <= h < |n.slaves| && n'.slaves[h] != n.slaves[h] ==> UsesSlave(n, i, h))
  }

  /** Client `i` is sending to slave `h`, or waiting for it. */
  predicate UsesSlave<A>(n: Node<A>, i: nat, h: int)
    requires Shape(n.gw) && i < TOTAL_CLIENTS
  {
    var c := n.gw.clients[i];
    && c.state in {Sending, Waiting}
    && n.gw.servers[c.indexServer].kind == SlaveModule && n.gw.servers[c.indexServer].handler == h
    && (c.state == Sending ==> !n.gw.servers[c.indexServer].busy)
  }

  lemma MasterSound(m: M.Master, id: byte, pdu: seq<byte>, size: nat)
    requires M.Sound(m) && |pdu| == BUFFER_SIZE
    ensures M.Sound(M.Tried(m)) && M.Sound(M.Response(m, id, pdu, size))
    ensures 0 < |M.Request(m)| <= BUFFER_SIZE || m.cmd == 0
  {
  }

  lemma IdleStep<A(!new)>(n: Node<A>, i: nat, inp: Input)
    requires NodeInv(n) && i < TOTAL_CLIENTS && n.gw.clients[i].inUse && n.gw.clients[i].state == Idle
    ensures var n' := NodeIdle(n, i, inp).node; Sane(n') && Framed(n, n', i) && n'.slaves == n.slaves
  {
    hide Contract, M.Sound, M.Request, M.Tried, LinkHears, Own, DistinctSlaves, Inv;
    var c := n.gw.clients[i];
    if c.kind == MasterModule {
      MasterSound(n.masters[c.handler], 0, c.buffer, 0);
      MasterSound(M.Tried(n.masters[c.handler]), 0, c.buffer, 0);
    } else {
      LinkHearsSane(n.links[c.handler].link, c.id, c.buffer, inp.rx, Reload(n.timeBase));
    }
    var h := HearClient(n, i, inp);
    ProcessShape(n.gw, i, Env(h.id, h.buffer, h.size, 0));
  }

  lemma RoutingStep<A(!new)>(n: Node<A>, i: nat)
    requires NodeInv(n) && i < TOTAL_CLIENTS && n.gw.clients[i].inUse && n.gw.clients[i].state == Routing
    ensures var c := n.gw.clients[i]; var n' := n.(gw := Process(n.gw, i, Env(c.id, c.buffer, c.size, 0)));
            Sane(n') && Framed(n, n', i) && n'.slaves == n.slaves
  {
    var c := n.gw.clients[i];
    ProcessShape(n.gw, i, Env(c.id, c.buffer, c.size, 0));
  }

  lemma SendKeepsLength(l: Link, m: F.Msg)
    ensures |Send(l, m).live| == |l.live|
  {
  }

  lemma SendingStep<A(!new)>(n: Node<A>, i: nat)
    requires NodeInv(n) && i < TOTAL_CLIENTS && n.gw.clients[i].inUse && n.gw.clients[i].state == Sending
    ensures var n' := NodeSending(n, i).node; Sane(n') && Framed(n, n', i)
  {
    hide Contract, M.Sound, Send, Emitted, Own, DistinctSlaves, Inv, TimeoutOf;
    var c := n.gw.clients[i];
    var s := n.gw.servers[c.indexServer];
    ProcessShape(n.gw, i, Env(c.id, c.buffer, c.size, TimeoutOf(n, c)));
    if s.kind != SlaveModule {
      SendKeepsLength(n.links[s.handler].link, F.Msg(c.id, c.buffer[..c.size]));
    }
  }

  /** A client that waits for a slave gets the answer to its own request in its next call. */
  lemma SlaveAnswers<A(!new)>(n: Node<A>, i: nat, h: nat, inp: Input)
    requires NodeInv(n) && InputOk(inp) && i < TOTAL_CLIENTS && h < |n.slaves| && WaitsForSlave(n, i, h)
    ensures var sl, c := n.slaves[h], n.gw.clients[i];
            var served := Serve(sl.cmd, sl.app, c.buffer[..c.size]);
            var heard := HearServer(n, i, inp);
            && heard.id == sl.id && heard.size == |served.reply| >= RSP_PDU_MINLENGTH
               && heard.buffer == Overlay(inp.rest, served.reply)
            && heard.node.slaves == n.slaves[h := sl.(app := served.app, size := |served.reply|)]
            && (forall j :: 0 <= j < TOTAL_CLIENTS && j != i ==> heard.node.gw.clients[j] == n.gw.clients[j])
  {
    var sl, c := n.slaves[h], n.gw.clients[i];
    assert SlaveOk(sl) && sl.buf == i && sl.size == c.size;
    ReplyShape(sl.cmd, sl.app, c.buffer[..c.size], sl.id);
    OverlayTwice(inp.rest, Serve(sl.cmd, sl.app, c.buffer[..c.size]).reply);
  }

  lemma OverlayTwice(dst: seq<byte>, src: seq<byte>)
    ensures Overlay(Overlay(dst, src), src) == Overlay(dst, src)
  {
  }

  /** A link that answers: nothing but its own state and the client's message fields change. */
  lemma LinkAnswers<A(!new)>(n: Node<A>, i: nat, inp: Input)
    requires NodeInv(n) && InputOk(inp) && i < TOTAL_CLIENTS && n.gw.clients[i].state == Waiting
    requires n.gw.servers[n.gw.clients[i].indexServer].kind == TransportModule
    ensures HearServer(n, i, inp).node.gw == n.gw && HearServer(n, i, inp).node.slaves == n.slaves
  {
  }

  /** Delivering a response to a client's module keeps the node sane and the rest of it alone. */
  lemma TellClientSane<A(!new)>(n: Node<A>, c: Client, id: byte, buffer: seq<byte>, size: nat)
    requires Sane(n) && c.inUse && ClientOk(n, c) && |buffer| == BUFFER_SIZE && size <= BUFFER_SIZE
    ensures var n' := TellClient(n, c, id, buffer, size).node;
            && Sane(n') && n'.gw == n.gw && n'.slaves == n.slaves && n'.timeBase == n.timeBase
            && |n'.masters| == |n.masters| && |n'.links| == |n.links|
  {
    hide Contract, M.Sound, M.Response, Send, Emitted;
    if c.kind == MasterModule {
      MasterSound(n.masters[c.handler], id, buffer, size);
    } else {
      SendKeepsLength(n.links[c.handler].link, F.Msg(id, buffer[..size]));
    }
  }

  /** Replacing the gateway's state by the one after a call keeps a node sane. */
  lemma ProcessSane<A(!new)>(n: Node<A>, i: nat, e: Env)
    requires Sane(n) && i < TOTAL_CLIENTS && n.gw.clients[i].state == Waiting
    requires |e.buffer| == BUFFER_SIZE && e.size <= BUFFER_SIZE
    ensures Sane(n.(gw := Process(n.gw, i, e)))
    ensures SameSlots(n.gw.servers, Process(n.gw, i, e).servers)
  {
    hide Contract, M.Sound;
    ProcessShape(n.gw, i, e);
  }

  lemma WaitingStep<A(!new)>(n: Node<A>, i: nat, inp: Input)
    requires NodeInv(n) && InputOk(inp) && i < TOTAL_CLIENTS && n.gw.clients[i].inUse
             && n.gw.clients[i].state == Waiting
    ensures var n' := NodeWaiting(n, i, inp).node; Sane(n') && Framed(n, n', i)
  {
    hide Contract, M.Sound, HearServer, TellClient, Own, DistinctSlaves, Inv;
    HearServerSane(n, i, inp);
    HearServerFramed(n, i, inp);
    var h := HearServer(n, i, inp);
    if h.size >= RSP_PDU_MINLENGTH {
      TellClientSane(h.node, n.gw.clients[i], h.id, h.buffer, h.size);
      var t := TellClient(h.node, n.gw.clients[i], h.id, h.buffer, h.size).node;
      ProcessSane(t, i, Env(h.id, h.buffer, h.size, 0));
    } else {
      ProcessSane(h.node, i, Env(h.id, h.buffer, h.size, 0));
    }
  }

  lemma HearServerFramed<A(!new)>(n: Node<A>, i: nat, inp: Input)
    requires NodeInv(n) && InputOk(inp) && i < TOTAL_CLIENTS && n.gw.clients[i].state == Waiting
    ensures Framed(n, HearServer(n, i, inp).node, i)
  {
    var s := n.gw.servers[n.gw.clients[i].indexServer];
    assert ServerOk(n, s);
    if s.kind == SlaveModule {
      assert WaitsForSlave(n, i, s.handler);
      SlaveAnswers(n, i, s.handler, inp);
    } else {
      LinkAnswers(n, i, inp);
    }
  }

  /** MAIN: a call for client `i`, whatever comes in from outside, changes nothing of any other client,
      its message included, and no slave but the one `i` sends to or waits for. */
  lemma NoCrossTalk<A(!new)>(n: Node<A>, i: nat, inp: Input)
    requires NodeInv(n) && InputOk(inp) && i < TOTAL_CLIENTS
    ensures var n' := NodeStep(n, i, inp).node; Sane(n') && Framed(n, n', i)
  {
    if n.gw.clients[i].inUse {
      match n.gw.clients[i].state
      case Idle => IdleStep(n, i, inp);
      case Routing => RoutingStep(n, i);
      case Sending => SendingStep(n, i);
      case Waiting => WaitingStep(n, i, inp);
    }
  }

  /** Slaves others wait for are not the one `i` uses. */
  lemma OthersWaitElsewhere<A(!new)>(n: Node<A>, i: nat, j: nat, h: nat)
    requires NodeInv(n) && i < TOTAL_CLIENTS && j < TOTAL_CLIENTS && i != j
    requires WaitsForSlave(n, j, h)
    ensures !UsesSlave(n, i, h)
  {
    hide DistinctSlaves, Exclusive, Own, Contract, M.Sound;
    var s, t := n.gw.clients[i].indexServer, n.gw.clients[j].indexServer;
    SlotOfSlave(n.gw.servers, s, t);
    WaitsAlone(n.gw, i, j, s, t);
  }

  /** Two slots hold the same slave. */
  predicate SameSlave(servers: seq<Server>, s: int, t: int) {
    && 0 <= s < |servers| && 0 <= t < |servers|
    && IsSlave(servers[s]) && IsSlave(servers[t]) && servers[s].handler == servers[t].handler
  }

  /** Two slots of one slave are one slot. */
  lemma SlotOfSlave(servers: seq<Server>, s: int, t: int)
    ensures DistinctSlaves(servers) && SameSlave(servers, s, t) ==> s == t
  {
  }

  /** A server somebody waits for is busy, and nobody else waits for it. */
  lemma WaitsAlone(g: Gateway, i: int, j: int, s: int, t: int)
    ensures Exclusive(g) && Waits(g, j, t) && 0 <= t < |g.servers| ==> g.servers[t].busy
    ensures Exclusive(g) && Waits(g, i, s) && Waits(g, j, t) && s == t ==> i == j
  {
  }

  /** What client `i` waits for after its call. */
  lemma OwnAfterStep<A(!new)>(n: Node<A>, i: nat, inp: Input, h: nat)
    requires NodeInv(n) && InputOk(inp) && i < TOTAL_CLIENTS
    requires var n' := NodeStep(n, i, inp).node;
             Sane(n') && Framed(n, n', i) && h < |n'.slaves| && WaitsForSlave(n', i, h)
    ensures var n' := NodeStep(n, i, inp).node;
            n'.slaves[h].buf == i && n'.slaves[h].size == n'.gw.clients[i].size >= REQ_PDU_MINLENGTH
  {
    hide Contract, M.Sound, HearClient, HearServer, TellClient, SendLink, Own, DistinctSlaves, Exclusive;
    var c := n.gw.clients[i];
    if c.inUse && c.state == Waiting {
      SlaveWaitEnds(n, i, inp, h);
    }
  }

  /** A client never waits for a slave after a call of its own in the waiting state. */
  lemma SlaveWaitEnds<A(!new)>(n: Node<A>, i: nat, inp: Input, h: nat)
    requires NodeInv(n) && InputOk(inp) && i < TOTAL_CLIENTS && h < |n.slaves|
    requires n.gw.clients[i].inUse && n.gw.clients[i].state == Waiting
    requires Sane(NodeStep(n, i, inp).node) && Framed(n, NodeStep(n, i, inp).node, i)
    ensures !WaitsForSlave(NodeStep(n, i, inp).node, i, h)
  {
    hide Contract, M.Sound, HearServer, TellClient, Serve, Own, DistinctSlaves, Exclusive;
    HearServerSane(n, i, inp);
    if WaitsForSlave(n, i, h) {
      SlaveAnswers(n, i, h, inp);
      var sl, c := n.slaves[h], n.gw.clients[i];
      assert HearServer(n, i, inp).size >= RSP_PDU_MINLENGTH;
    }
  }

  lemma OwnKept<A(!new)>(n: Node<A>, i: nat, inp: Input)
    requires NodeInv(n) && InputOk(inp) && i < TOTAL_CLIENTS
    requires var n' := NodeStep(n, i, inp).node; Sane(n') && Framed(n, n', i)
    ensures Own(NodeStep(n, i, inp).node)
  {
    var n' := NodeStep(n, i, inp).node;
    forall j, h | 0 <= j < TOTAL_CLIENTS && 0 <= h < |n'.slaves| && WaitsForSlave(n', j, h)
      ensures n'.slaves[h].buf == j && n'.slaves[h].size == n'.gw.clients[j].size >= REQ_PDU_MINLENGTH
    {
      if j == i {
        OwnAfterStep(n, i, inp, h);
      } else {
        assert WaitsForSlave(n, j, h);
        OthersWaitElsewhere(n, i, j, h);
      }
    }
  }

  /** The gateway of a node moves as the gateway of `Gateway` does, on what the modules produced. */
  lemma GatewayMoves<A(!new)>(n: Node<A>, i: nat, inp: Input) returns (g: Gateway, e: Env)
    requires NodeInv(n) && InputOk(inp) && i < TOTAL_CLIENTS
    ensures Inv(g) && NodeStep(n, i, inp).node.gw == Process(g, i, e)
    ensures g.servers == n.gw.servers && g.clients[i].(buffer := n.gw.clients[i].buffer) == n.gw.clients[i]
  {
    var c := n.gw.clients[i];
    g, e := n.gw, Env(c.id, c.buffer, c.size, 0);
    if c.inUse {
      match c.state
      case Idle => var h := HearClient(n, i, inp); e := Env(h.id, h.buffer, h.size, 0);
      case Routing =>
      case Sending => e := Env(c.id, c.buffer, c.size, TimeoutOf(n, c));
      case Waiting =>
        HearServerSane(n, i, inp);
        HearServerFramed(n, i, inp);
        var h := HearServer(n, i, inp);
        g, e := h.node.gw, Env(h.id, h.buffer, h.size, 0);
        SameWaits(n.gw, g, i);
    }
  }

  /** Mutual exclusion does not depend on the messages. */
  lemma SameWaits(g: Gateway, g': Gateway, i: nat)
    requires Inv(g) && Shape(g') && i < TOTAL_CLIENTS && g'.servers == g.servers
    requires forall j :: 0 <= j < TOTAL_CLIENTS && j != i ==> g'.clients[j] == g.clients[j]
    requires g'.clients[i].(buffer := g.clients[i].buffer) == g.clients[i]
    ensures Inv(g')
  {
    assert g'.clients[i].state == g.clients[i].state && g'.clients[i].indexServer == g.clients[i].indexServer;
    assert forall j, s :: Waits(g', j, s) <==> Waits(g, j, s);
  }

  /** MAIN: every call keeps the node's invariant. */
  lemma NodeStepKeepsInv<A(!new)>(n: Node<A>, i: nat, inp: Input)
    requires NodeInv(n) && InputOk(inp) && i < TOTAL_CLIENTS
    ensures NodeInv(NodeStep(n, i, inp).node)
  {
    NoCrossTalk(n, i, inp);
    OwnKept(n, i, inp);
    var g, e := GatewayMoves(n, i, inp);
    ProcessExclusive(g, i, e);
  }

  /** A call of the node. */
  type NodeCall = ClientCall<Input>

  predicate CallsOk(calls: seq<NodeCall>) {
    forall k :: 0 <= k < |calls| ==> calls[k].client < TOTAL_CLIENTS && InputOk(calls[k].inp)
  }

  ghost function NodeRun<A(!new)>(n: Node<A>, calls: seq<NodeCall>): (n': Node<A>)
    requires NodeInv(n) && CallsOk(calls)
    ensures NodeInv(n')
    decreases |calls|
  {
    if calls == [] then n
    else
      NodeStepKeepsInv(n, calls[0].client, calls[0].inp);
      NodeRun(NodeStep(n, calls[0].client, calls[0].inp).node, calls[1..])
  }

  /** While a client waits for a slave, calls for other clients leave its request and the slave alone. */
  lemma {:induction false} WaitUndisturbed<A(!new)>(n: Node<A>, i: nat, h: nat, calls: seq<NodeCall>)
    requires NodeInv(n) && CallsOk(calls) && i < TOTAL_CLIENTS && h < |n.slaves| && WaitsForSlave(n, i, h)
    requires forall k :: 0 <= k < |calls| ==> calls[k].client != i
    ensures var n' := NodeRun(n, calls);
            && n'.gw.clients[i] == n.gw.clients[i] && |n'.slaves| == |n.slaves| && n'.slaves[h] == n.slaves[h]
            && WaitsForSlave(n', i, h)
    decreases |calls|
  {
    if calls != [] {
      var j, inp := calls[0].client, calls[0].inp;
      NoCrossTalk(n, j, inp);
      NodeStepKeepsInv(n, j, inp);
      OthersWaitElsewhere(n, j, i, h);
      WaitUndisturbed(NodeStep(n, j, inp).node, i, h, calls[1..]);
    }
  }

  /** The call of client `i` with `inp` leaves it idle and slave `h` with the state of `served`, and
      hands the reply, under the slave's id, to the client's own module. */
  ghost predicate Delivers<A(!new)>(n: Node<A>, i: nat, inp: Input, h: nat, served: Served<A>)
    requires NodeInv(n) && InputOk(inp) && i < TOTAL_CLIENTS && n.gw.clients[i].inUse && h < |n.slaves|
    requires |served.reply| <= BUFFER_SIZE
  {
    var c, id, last := n.gw.clients[i], n.slaves[h].id, NodeStep(n, i, inp);
    && |last.node.gw.clients| == TOTAL_CLIENTS && last.node.gw.clients[i].state == Idle
    && h < |last.node.slaves| && last.node.slaves[h].app == served.app
    && if c.kind == MasterModule then
         && ClientOk(n, c) && c.handler < |last.node.masters| && last.sent == []
         && last.node.masters[c.handler] ==
            M.Response(n.masters[c.handler], id, Overlay(inp.rest, served.reply), |served.reply|)
       else last.sent == [Sent(c.handler, F.Frame(F.Msg(id, served.reply)))]
  }

  /** The answer of slave `h` to the request client `i` holds. */
  ghost function AnswerTo<A(!new)>(n: Node<A>, i: nat, h: nat): (served: Served<A>)
    requires NodeInv(n) && i < TOTAL_CLIENTS && h < |n.slaves| && WaitsForSlave(n, i, h)
    ensures |served.reply| <= BUFFER_SIZE
  {
    var sl, c := n.slaves[h], n.gw.clients[i];
    assert SlaveOk(sl) && ClientOk(n, c) && sl.size == c.size;
    ReplyShape(sl.cmd, sl.app, c.buffer[..c.size], sl.id);
    Serve(sl.cmd, sl.app, c.buffer[..c.size])
  }

  /** MAIN: the reply a client gets from a slave is the slave's answer to that client's own request, in
      the state the slave was in when the request was sent, whatever the other clients do in between;
      it comes with the client's next call and goes to the client's own module. */
  lemma ReplyIsOwn<A(!new)>(n: Node<A>, i: nat, h: nat, calls: seq<NodeCall>, inp: Input)
    requires NodeInv(n) && CallsOk(calls) && InputOk(inp) && i < TOTAL_CLIENTS && h < |n.slaves|
             && WaitsForSlave(n, i, h)
    requires forall k :: 0 <= k < |calls| ==> calls[k].client != i
    ensures var n' := NodeRun(n, calls);
            && n'.gw.clients[i].inUse && h < |n'.slaves|
            && Delivers(n', i, inp, h, AnswerTo(n, i, h))
  {
    hide Delivers;
    WaitUndisturbed(n, i, h, calls);
    Forwarded(NodeRun(n, calls), i, h, inp);
  }

  lemma Forwarded<A(!new)>(n: Node<A>, i: nat, h: nat, inp: Input)
    requires NodeInv(n) && InputOk(inp) && i < TOTAL_CLIENTS && h < |n.slaves| && WaitsForSlave(n, i, h)
    ensures n.gw.clients[i].inUse && Delivers(n, i, inp, h, AnswerTo(n, i, h))
  {
    hide Contract, M.Sound, M.Response, Serve, HearServer, DistinctSlaves, Exclusive, Send, F.Frame;
    HearServerSane(n, i, inp);
    SlaveAnswers(n, i, h, inp);
    var served := AnswerTo(n, i, h);
    ReplyShape(n.slaves[h].cmd, n.slaves[h].app, n.gw.clients[i].buffer[..n.gw.clients[i].size], n.slaves[h].id);
    assert Overlay(inp.rest, served.reply)[..|served.reply|] == served.reply;
  }

  /** Sending to a free slave hands over the request as it stands and starts the wait. */
  lemma RequestHandedOver<A(!new)>(n: Node<A>, i: nat, inp: Input)
    requires NodeInv(n) && InputOk(inp) && i < TOTAL_CLIENTS && n.gw.clients[i].inUse
             && n.gw.clients[i].state == Sending
    requires var s := n.gw.servers[n.gw.clients[i].indexServer]; s.kind == SlaveModule && !s.busy
    ensures var c, n' := n.gw.clients[i], NodeStep(n, i, inp).node;
            var h := n.gw.servers[c.indexServer].handler;
            && NodeInv(n') && 0 <= h < |n.slaves| == |n'.slaves| && WaitsForSlave(n', i, h)
            && ClientOk(n, c) && n.timeBase > 0
            && n'.gw.clients[i] == c.(state := Waiting,
               timeout := (if c.kind == MasterModule then n.masters[c.handler].respTimeout
                           else n.links[c.handler].respTimeout) / n.timeBase)
            && n'.slaves[h] == n.slaves[h].(buf := i, size := c.size) && NodeStep(n, i, inp).sent == []
  {
    NoCrossTalk(n, i, inp);
    NodeStepKeepsInv(n, i, inp);
    assert ServerOk(n, n.gw.servers[n.gw.clients[i].indexServer]);
  }

  /** A node whose clients are idle and whose servers are free satisfies the invariant. */
  lemma IdleNode<A(!new)>(n: Node<A>)
    requires Sane(n) && DistinctSlaves(n.gw.servers)
    requires forall i :: 0 <= i < TOTAL_CLIENTS ==> n.gw.clients[i].state == Idle
    requires forall s :: 0 <= s < TOTAL_SERVERS ==> !n.gw.servers[s].busy
    ensures NodeInv(n)
  {
    assert forall i, s :: !Waits(n.gw, i, s);
  }
}
