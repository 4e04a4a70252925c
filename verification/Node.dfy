/** One device: a gateway with the masters, slaves and ASCII links behind its slots. A slave holds a
    reference to a client's buffer, written as the number of the client. */
module Node {
  import opened Bytes
  import opened Modbus
  import F = AsciiFrame
  import L = Lrc
  import opened AsciiLink
  import opened Slave
  import opened SlaveProperties
  import M = Master
  import opened Gateway

  /** A slave object; `buf` is the client whose buffer it points to, or -1. */
  datatype SlaveState<!A> = SlaveState(cmd: Callbacks<A>, id: byte, app: A, buf: int, size: nat)

  /** An ASCII transport: its link and its response timeout in milliseconds. */
  datatype Transport = Transport(link: Link, respTimeout: nat)

  datatype Node<!A> = Node(
    timeBase: nat, gw: Gateway, masters: seq<M.Master>, slaves: seq<SlaveState<A>>, links: seq<Transport>)

  /** What a call gets from outside: the characters the line offers, and what a slave's callbacks leave
      in the buffer behind the reply. */
  datatype Input = Input(rx: seq<byte>, rest: seq<byte>)

  /** A frame written by link `link`. */
  datatype Sent = Sent(link: int, frame: seq<byte>)

  /** A node after a module was called, and the message fields of the client after `recvMsg`. */
  datatype Heard<!A> = Heard(node: Node<A>, id: byte, buffer: seq<byte>, size: nat)

  datatype Stepped<!A> = Stepped(node: Node<A>, sent: seq<Sent>)

  function Reload(timeBase: nat): nat
    requires timeBase > 0
  {
    1000 / timeBase
  }

  // Slots point to modules that exist.

  ghost predicate ClientOk<A>(n: Node<A>, c: Client) {
    && |c.buffer| == BUFFER_SIZE && c.size <= BUFFER_SIZE
    && (c.state in {Routing, Sending} ==> c.size >= REQ_PDU_MINLENGTH)
    && (c.inUse ==>
          || (c.kind == MasterModule && 0 <= c.handler < |n.masters|)
          || (c.kind == TransportModule && 0 <= c.handler < |n.links|))
  }

  ghost predicate ServerOk<A>(n: Node<A>, s: Server) {
    s.inUse ==>
      || (s.kind == SlaveModule && 0 <= s.handler < |n.slaves|)
      || (s.kind == TransportModule && 0 <= s.handler < |n.links|)
  }

  ghost predicate SlaveOk<A(!new)>(s: SlaveState<A>) {
    Contract(s.cmd) && -1 <= s.buf < TOTAL_CLIENTS && s.size <= BUFFER_SIZE
  }

  ghost predicate Sane<A(!new)>(n: Node<A>) {
    && n.timeBase > 0 && Shape(n.gw)
    && (forall i :: 0 <= i < |n.gw.clients| ==> ClientOk(n, n.gw.clients[i]))
    && (forall s :: 0 <= s < |n.gw.servers| ==> ServerOk(n, n.gw.servers[s]))
    && (forall h :: 0 <= h < |n.slaves| ==> SlaveOk(n.slaves[h]))
    && (forall h :: 0 <= h < |n.masters| ==> M.Sound(n.masters[h]))
    && (forall h :: 0 <= h < |n.links| ==> |n.links[h].link.live| <= F.MAX_LENGTH)
  }

  predicate InputOk(inp: Input) {
    |inp.rest| == BUFFER_SIZE
  }

  // Calls of the modules.

  /** A link's tick and reception, and the client's message fields after it. */
  function LinkHears(l: Link, id: byte, buffer: seq<byte>, rx: seq<byte>, reload: nat): (Link, byte, seq<byte>, nat)
    requires |l.live| <= F.MAX_LENGTH
  {
    var l1 := Tick(l, rx, reload);
    match F.Receive(l1.live)
    case None => (Recv(l1), id, buffer, 0)
    case Some(m) => (Recv(l1), m.id, Overlay(buffer, m.pdu + [L.CheckByte([m.id] + m.pdu)]), |m.pdu|)
  }

  ghost function TickLink<A(!new)>(n: Node<A>, i: nat, h: nat, rx: seq<byte>): Heard<A>
    requires Sane(n) && i < TOTAL_CLIENTS && h < |n.links|
  {
    var c, t := n.gw.clients[i], n.links[h];
    var (l, id, buffer, size) := LinkHears(t.link, c.id, c.buffer, rx, Reload(n.timeBase));
    Heard(n.(links := n.links[h := t.(link := l)]), id, buffer, size)
  }

  /** The client's own module: its periodic call, and its next request. */
  ghost function HearClient<A(!new)>(n: Node<A>, i: nat, inp: Input): Heard<A>
    requires Sane(n) && i < TOTAL_CLIENTS && n.gw.clients[i].inUse
  {
    var c := n.gw.clients[i];
    if c.kind == MasterModule then
      var m := M.Tried(n.masters[c.handler]);
      var n' := n.(masters := n.masters[c.handler := m]);
      if m.cmd == 0 then Heard(n', c.id, c.buffer, c.size)
      else Heard(n', m.slaveId, Overlay(c.buffer, M.Request(m)), |M.Request(m)|)
    else TickLink(n, i, c.handler, inp.rx)
  }

  /** The server's module: its periodic call, and its response. A slave works in the buffer it points to. */
  ghost function HearServer<A(!new)>(n: Node<A>, i: nat, inp: Input): Heard<A>
    requires Sane(n) && InputOk(inp) && i < TOTAL_CLIENTS && n.gw.clients[i].state == Waiting
  {
    var c := n.gw.clients[i];
    var s := n.gw.servers[c.indexServer];
    if s.kind == SlaveModule then
      var sl := n.slaves[s.handler];
      if sl.size == 0 || sl.buf < 0 then Heard(n, sl.id, c.buffer, 0)
      else
        var target := n.gw.clients[sl.buf];
        var served := Serve(sl.cmd, sl.app, target.buffer[..sl.size]);
        var clients := n.gw.clients[sl.buf := target.(buffer := Overlay(inp.rest, served.reply))];
        var n' := n.(gw := n.gw.(clients := clients),
                     slaves := n.slaves[s.handler := sl.(app := served.app, size := |served.reply|)]);
        Heard(n', sl.id, Overlay(clients[i].buffer, served.reply), |served.reply|)
    else TickLink(n, i, s.handler, inp.rx)
  }

  ghost function SendLink<A(!new)>(n: Node<A>, h: nat, m: F.Msg): Stepped<A>
    requires h < |n.links|
  {
    Stepped(n.(links := n.links[h := n.links[h].(link := Send(n.links[h].link, m))]),
            seq(|Emitted(m)|, k requires 0 <= k < |Emitted(m)| => Sent(h, Emitted(m)[k])))
  }

  /** The client's request goes to its server. */
  ghost function TellServer<A(!new)>(n: Node<A>, i: nat): Stepped<A>
    requires Sane(n) && i < TOTAL_CLIENTS && n.gw.clients[i].state == Sending
  {
    var c := n.gw.clients[i];
    var s := n.gw.servers[c.indexServer];
    if s.kind == SlaveModule then
      Stepped(n.(slaves := n.slaves[s.handler := n.slaves[s.handler].(buf := i, size := c.size)]), [])
    else SendLink(n, s.handler, F.Msg(c.id, c.buffer[..c.size]))
  }

  /** A response goes to the client's own module. */
  ghost function TellClient<A(!new)>(n: Node<A>, c: Client, id: byte, buffer: seq<byte>, size: nat): Stepped<A>
    requires Sane(n) && c.inUse && ClientOk(n, c) && |buffer| == BUFFER_SIZE && size <= BUFFER_SIZE
  {
    if c.kind == MasterModule then
      Stepped(n.(masters := n.masters[c.handler := M.Response(n.masters[c.handler], id, buffer, size)]), [])
    else SendLink(n, c.handler, F.Msg(id, buffer[..size]))
  }

  /** The response timeout of the client's module, in ticks. */
  ghost function TimeoutOf<A(!new)>(n: Node<A>, c: Client): nat
    requires Sane(n) && c.inUse && ClientOk(n, c)
  {
    (if c.kind == MasterModule then n.masters[c.handler].respTimeout else n.links[c.handler].respTimeout) / n.timeBase
  }

  // One call of the gateway's state machine with the modules behind it.

  ghost function NodeIdle<A(!new)>(n: Node<A>, i: nat, inp: Input): Stepped<A>
    requires Sane(n) && i < TOTAL_CLIENTS && n.gw.clients[i].inUse
  {
    var h := HearClient(n, i, inp);
    Stepped(h.node.(gw := Process(n.gw, i, Env(h.id, h.buffer, h.size, 0))), [])
  }

  ghost function NodeSending<A(!new)>(n: Node<A>, i: nat): Stepped<A>
    requires Sane(n) && i < TOTAL_CLIENTS && n.gw.clients[i].inUse && n.gw.clients[i].state == Sending
  {
    var c := n.gw.clients[i];
    if n.gw.servers[c.indexServer].busy then Stepped(n, [])
    else
      var t := TellServer(n, i);
      t.(node := t.node.(gw := Process(n.gw, i, Env(c.id, c.buffer, c.size, TimeoutOf(n, c)))))
  }

  ghost function NodeWaiting<A(!new)>(n: Node<A>, i: nat, inp: Input): Stepped<A>
    requires Sane(n) && InputOk(inp) && i < TOTAL_CLIENTS && n.gw.clients[i].inUse && n.gw.clients[i].state == Waiting
  {
    HearServerSane(n, i, inp);
    var h := HearServer(n, i, inp);
    var t := if h.size >= RSP_PDU_MINLENGTH then TellClient(h.node, n.gw.clients[i], h.id, h.buffer, h.size)
        else Stepped(h.node, []);
    t.(node := t.node.(gw := Process(h.node.gw, i, Env(h.id, h.buffer, h.size, 0))))
  }

  ghost function NodeStep<A(!new)>(n: Node<A>, i: nat, inp: Input): Stepped<A>
    requires Sane(n) && InputOk(inp) && i < TOTAL_CLIENTS
  {
    var c := n.gw.clients[i];
    if !c.inUse then Stepped(n, [])
    else
      match c.state
      case Idle => NodeIdle(n, i, inp)
      case Routing => Stepped(n.(gw := Process(n.gw, i, Env(c.id, c.buffer, c.size, 0))), [])
      case Sending => NodeSending(n, i)
      case Waiting => NodeWaiting(n, i, inp)
  }

  lemma LinkHearsSane(l: Link, id: byte, buffer: seq<byte>, rx: seq<byte>, reload: nat)
    requires |l.live| <= F.MAX_LENGTH && |buffer| == BUFFER_SIZE
    ensures var (l', _, buffer', size) := LinkHears(l, id, buffer, rx, reload);
            |l'.live| <= F.MAX_LENGTH && |buffer'| == BUFFER_SIZE && size <= 60
  {
    var l1 := Tick(l, rx, reload);
    if F.Receive(l1.live).Some? {
      F.ReceivedWasSent(l1.live);
      F.FrameShape(F.Receive(l1.live).value);
    }
  }

  /** Hearing a server keeps the node sane and leaves the message fields of the client within bounds. */
  lemma HearServerSane<A(!new)>(n: Node<A>, i: nat, inp: Input)
    requires Sane(n) && InputOk(inp) && i < TOTAL_CLIENTS && n.gw.clients[i].state == Waiting
    ensures var h := HearServer(n, i, inp);
            && Sane(h.node) && |h.buffer| == BUFFER_SIZE && h.size <= BUFFER_SIZE
            && h.node.gw.servers == n.gw.servers && h.node.masters == n.masters
            && h.node.gw.clients[i].(buffer := n.gw.clients[i].buffer) == n.gw.clients[i]
  {
    hide Contract, M.Sound, Serve, LinkHears;
    var c := n.gw.clients[i];
    var s := n.gw.servers[c.indexServer];
    if s.kind == SlaveModule {
      var sl := n.slaves[s.handler];
      if sl.size != 0 && sl.buf >= 0 {
        var pdu := n.gw.clients[sl.buf].buffer[..sl.size];
        assert SlaveOk(sl);
        ReplyShape(sl.cmd, sl.app, pdu, sl.id);
      }
    } else {
      LinkHearsSane(n.links[s.handler].link, c.id, c.buffer, inp.rx, Reload(n.timeBase));
    }
  }
}
