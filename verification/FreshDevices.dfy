/** Two devices as their programs set them up, and every read-write command carried out between them. */
module FreshDevices {
  import opened Bytes
  import opened Modbus
  import F = AsciiFrame
  import opened AsciiLink
  import S = AsciiStream
  import opened Oversized
  import opened Slave
  import opened RegisterFile
  import M = Master
  import opened Gateway
  import T = GatewayTable
  import opened Node
  import opened NodeProperties
  import X = BlinkingSlave
  import opened TwoNodes

  const BLINKING_MODBUS_ID: byte := 2

  /** A gateway opened, with a master added as its client and a master transport as its server. */
  function MasterGateway(): Gateway {
    T.AddServer(T.AddClient(T.Opened(T.ClearGateway()), MasterModule, 0), TransportModule, 0, 0)
  }

  /** A gateway opened, with a slave of id `id` added as its server and a slave transport as its client. */
  function SlaveGateway(id: byte): Gateway {
    T.AddClient(T.AddServer(T.Opened(T.ClearGateway()), SlaveModule, 0, id), TransportModule, 0)
  }

  function FreshLink(): Transport {
    Transport(Link([], 0), 300)
  }

  /** A device whose master has the command of `m` pending. */
  function MasterDevice(m: M.Master, timeBase: nat): Node<Bank> {
    Node(timeBase, MasterGateway(), [m], [], [FreshLink()])
  }

  /** A device whose slave serves `id` with the callbacks `cmd` on `app`. */
  function SlaveDevice<A>(cmd: Callbacks<A>, id: byte, app: A, timeBase: nat): Node<A> {
    Node(timeBase, SlaveGateway(id), [], [SlaveState(cmd, id, app, -1, 0)], [FreshLink()])
  }

  lemma MasterGatewaySlots()
    ensures var g := MasterGateway();
            && Inv(g) && |g.clients| == TOTAL_CLIENTS && |g.servers| == TOTAL_SERVERS
            && g.clients[0] == T.ClearClient().(inUse := true, kind := MasterModule, handler := 0)
               && g.clients[1] == T.ClearClient()
            && g.servers[0] == Server(true, TransportModule, 0, 0, false) && g.servers[1] == T.ClearServer()
  {
    T.ClearInv();
    T.OpenedInv(T.ClearGateway());
    T.AddClientInv(T.Opened(T.ClearGateway()), MasterModule, 0);
    T.AddServerInv(T.AddClient(T.Opened(T.ClearGateway()), MasterModule, 0), TransportModule, 0, 0);
  }

  lemma SlaveGatewaySlots(id: byte)
    ensures var g := SlaveGateway(id);
            && Inv(g) && |g.clients| == TOTAL_CLIENTS && |g.servers| == TOTAL_SERVERS
            && g.clients[0] == T.ClearClient().(inUse := true, kind := TransportModule, handler := 0)
               && g.clients[1] == T.ClearClient()
            && g.servers[0] == Server(true, SlaveModule, 0, id, false) && g.servers[1] == T.ClearServer()
  {
    T.ClearInv();
    T.OpenedInv(T.ClearGateway());
    T.AddServerInv(T.Opened(T.ClearGateway()), SlaveModule, 0, id);
    T.AddClientInv(T.AddServer(T.Opened(T.ClearGateway()), SlaveModule, 0, id), TransportModule, 0);
  }

  lemma OneMoreOperation(n: nat, ops: seq<T.Op>, t: seq<Gateway>, op: T.Op, t': seq<Gateway>)
    requires T.Reaches(n, ops, t) && T.TableShape(t) && T.OpOk(t, op) && t' == T.Apply(t, op)
    ensures T.Reaches(n, ops + [op], t')
  {
    hide T.Apply, T.TableShape, T.OpOk;
    assert (ops + [op])[..|ops|] == ops;
  }

  /** MAIN: a table after its initialisation, its first gateway opened, and a slave or a master and its
      transport added: the first gateway is the one of the device. */
  lemma SetUp(n: nat, id: byte) returns (ofMaster: seq<Gateway>, ofSlave: seq<Gateway>)
    requires n > 0
    ensures T.Reaches(n, [T.Open, T.AddMaster(0, 0), T.AddTransport(0, 0, T.MasterTransport)], ofMaster)
    ensures T.Reaches(n, [T.Open, T.AddSlave(0, 0, id), T.AddTransport(0, 0, T.SlaveTransport)], ofSlave)
    ensures |ofMaster| == |ofSlave| == n && ofMaster[0] == MasterGateway() && ofSlave[0] == SlaveGateway(id)
  {
    hide T.Reaches, T.Opened, T.ClearGateway, T.AddClient, T.AddServer;
    var first := OpenedTable(n);
    var g := first[0];
    var client, server := T.AddClient(g, MasterModule, 0), T.AddServer(g, SlaveModule, 0, id);
    StaysOpened(g, MasterModule, 0, id);
    StaysOpened(g, SlaveModule, 0, id);
    ofMaster, ofSlave := first[0 := client][0 := MasterGateway()], first[0 := server][0 := SlaveGateway(id)];
    var m, s := T.AddMaster(0, 0), T.AddSlave(0, 0, id);
    var mt, st := T.AddTransport(0, 0, T.MasterTransport), T.AddTransport(0, 0, T.SlaveTransport);
    OneMoreOperation(n, [T.Open], first, m, first[0 := client]);
    OneMoreOperation(n, [T.Open] + [m], first[0 := client], mt, ofMaster);
    OneMoreOperation(n, [T.Open], first, s, first[0 := server]);
    OneMoreOperation(n, [T.Open] + [s], first[0 := server], st, ofSlave);
    assert [T.Open] + [m] + [mt] == [T.Open, m, mt] && [T.Open] + [s] + [st] == [T.Open, s, st];
  }

  lemma StaysOpened(g: Gateway, kind: Module, handler: int, id: byte)
    requires Inv(g) && g.inUse
    ensures var c, s := T.AddClient(g, kind, handler), T.AddServer(g, kind, handler, id);
            Shape(c) && c.inUse && Shape(s) && s.inUse
  {
    T.AddClientInv(g, kind, handler);
    T.AddServerInv(g, kind, handler, id);
  }

  /** The table when its first gateway is opened. */
  lemma OpenedTable(n: nat) returns (t: seq<Gateway>)
    requires n > 0
    ensures T.Reaches(n, [T.Open], t) && |t| == n && t[0] == T.Opened(T.ClearGateway()) && t[0].inUse
    ensures T.TableShape(t) && Inv(t[0])
  {
    hide T.Reaches, Exclusive, Shape, T.ClearGateway;
    var t0: seq<Gateway> := seq(n, i => T.ClearGateway());
    T.ClearInv();
    NothingDone(n);
    ClearUnused();
    T.OpenedInv(T.ClearGateway());
    FirstIsOpened(t0);
    t := t0[0 := T.Opened(T.ClearGateway())];
    OneMoreOperation(n, [], t0, T.Open, t);
    assert [] + [T.Open] == [T.Open];
  }

  lemma ClearUnused()
    ensures !T.ClearGateway().inUse
  {
  }

  lemma NothingDone(n: nat)
    ensures T.Reaches(n, [], seq(n, i => T.ClearGateway()))
  {
  }

  lemma FirstIsOpened(t: seq<Gateway>)
    requires t != [] && !t[0].inUse && T.TableShape(t)
    ensures T.Apply(t, T.Open) == t[0 := T.Opened(t[0])]
  {
  }

  /** A command on its way out. */
  predicate Pending(m: M.Master) {
    M.Sound(m) && m.cmd != 0 && m.retryCount > 0
  }

  lemma MasterDeviceAsks(m: M.Master, timeBase: nat)
    requires Pending(m) && timeBase > 0
    ensures var a := MasterDevice(m, timeBase);
            && NodeInv(a) && Asking(a, 0, 0) && ServerLink(a, m.slaveId) == Some(Link([], 0))
            && |a.gw.clients[0].buffer| == BUFFER_SIZE
  {
    hide Inv, MasterGateway, M.Sound;
    MasterGatewaySlots();
    var a := MasterDevice(m, timeBase);
    assert Shape(a.gw) by { InvHasShape(a.gw); }
    IdleNode(a);
  }

  lemma InvHasShape(g: Gateway)
    requires Inv(g)
    ensures Shape(g)
  {
  }

  lemma SlaveDeviceServes<A(!new)>(cmd: Callbacks<A>, id: byte, app: A, timeBase: nat)
    requires timeBase > 0 && id != 0 && Contract(cmd)
    ensures var b := SlaveDevice(cmd, id, app, timeBase);
            NodeInv(b) && Serving(b, 0, 0, id) && b.gw.clients[0].handler == 0 && b.links[0].link.live == []
  {
    hide Inv, SlaveGateway, Contract;
    SlaveGatewaySlots(id);
    var b := SlaveDevice(cmd, id, app, timeBase);
    assert Shape(b.gw) by { InvHasShape(b.gw); }
    IdleNode(b);
  }

  /** The example's device, whatever its inputs and outputs. */
  lemma BlinkingDeviceServes(board: X.Board, timeBase: nat)
    requires timeBase > 0
    ensures var b := SlaveDevice(X.CALLBACKS, BLINKING_MODBUS_ID, board, timeBase);
            NodeInv(b) && Serving(b, 0, 0, BLINKING_MODBUS_ID) && b.slaves[0].cmd == X.CALLBACKS
  {
    hide NodeInv, Serving, Contract;
    X.BoardMeetsContract();
    SlaveDeviceServes(X.CALLBACKS, BLINKING_MODBUS_ID, board, timeBase);
  }

  /** A frame that comes in one piece. */
  lemma WholeFrameArrives(l: Link, m: F.Msg, reload: nat)
    requires l.live == [] && 1 <= |m.pdu| <= 60 && reload > 0
    ensures Carries(l, [F.Frame(m)], m, reload)
  {
    hide F.Frame;
    F.FrameShape(m);
    var chunks := [F.Frame(m)];
    assert chunks[..0] == [] && chunks[..1] == chunks && chunks[0..] == chunks;
    assert S.Flatten(chunks) == F.Frame(m);
    assert CarriesFrom(l, chunks, m, reload, 0);
  }

  /** What the chunks that carry a frame say: the frame and nothing else. */
  lemma CarriedCharacters(l: Link, chunks: seq<seq<byte>>, m: F.Msg, reload: nat)
    requires |l.live| <= F.MAX_LENGTH && Carries(l, chunks, m, reload)
    ensures S.Flatten(chunks) == F.Frame(m)
  {
    hide F.Frame;
    var k: int :| CarriesFrom(l, chunks, m, reload, k);
    assert chunks == chunks[..k] + chunks[k..];
    S.FlattenAppend(chunks[..k], chunks[k..]);
    SilenceIsEmpty(chunks[..k]);
    assert [] + F.Frame(m) == F.Frame(m);
  }

  lemma {:induction false} SilenceIsEmpty(chunks: seq<seq<byte>>)
    requires forall q :: 0 <= q < |chunks| ==> chunks[q] == []
    ensures S.Flatten(chunks) == []
  {
    if chunks != [] {
      SilenceIsEmpty(chunks[..|chunks| - 1]);
    }
  }

  /** A read-write that one exchange completes on a bank `regs`. */
  predicate Completable(m: M.Master, regs: Bank) {
    && Pending(m) && m.cmd == READ_WRITE_MULTIPLE_REGISTERS
    && 1 <= m.quantityR <= 29 && m.startR + m.quantityR <= |regs|
    && 1 <= m.quantityW <= 25 && m.startW + m.quantityW <= |regs|
  }

  function AnswerOf(m: M.Master, regs: Bank): F.Msg
    requires M.Sound(m) && M.Request(m) != []
  {
    F.Msg(m.slaveId, Serve(BANK, regs, M.Request(m)).reply)
  }

  /** `a` writes exactly the characters `toB`, before it hears anything, and `b`, hearing them, exactly
      the characters `toA`; and with `a` hearing those the command of `m` over `regs` is carried out and
      completed. */
  ghost predicate OverALine(a: Node<Bank>, b: Node<Bank>, toB: seq<seq<byte>>, toA: seq<seq<byte>>, rest: seq<byte>,
      m: M.Master, regs: Bank)
    requires NodeInv(a) && NodeInv(b)
  {
    var asks, callsA, callsB := Silent(0, 3, rest), Silent(0, 3, rest) + Polls(0, toA, rest),
        Polls(0, toB, rest) + Silent(0, 3, rest);
    && CallsOk(asks) && CallsOk(callsA) && CallsOk(callsB)
    && SentBy(a, asks) == SentBy(a, callsA) == [Sent(0, S.Flatten(toB))]
    && SentBy(b, callsB) == [Sent(0, S.Flatten(toA))]
    && |NodeRun(a, callsA).masters| > 0 && |NodeRun(b, callsB).slaves| > 0
    && ReadWriteDone(m, NodeRun(a, callsA).masters[0], regs, NodeRun(b, callsB).slaves[0].app)
  }

  lemma AllRouted(id: byte)
    ensures Route(MasterGateway().servers, id) == 0
  {
    hide MasterGateway, Inv;
    MasterGatewaySlots();
  }

  /** MAIN: between two devices just set up and joined by a line, every read-write command of a master to
      any slave id but 0, of 1 to 29 registers read and 1 to 25 written inside the bank, is carried out
      and completed, in whatever pieces the line hands over what each device wrote. */
  lemma EveryReadWriteCarriedOut(m: M.Master, regs: Bank, timeBase: nat, toB: seq<seq<byte>>, toA: seq<seq<byte>>,
      rest: seq<byte>)
    requires Completable(m, regs) && 0 < timeBase <= 1000 && |rest| == BUFFER_SIZE
    requires M.Request(m) != [] && |toA| <= m.respTimeout / timeBase + 1
    requires Carries(Link([], 0), toB, RequestOf(m), Reload(timeBase))
    requires Carries(Link([], 0), toA, AnswerOf(m, regs), Reload(timeBase))
    ensures var a, b := MasterDevice(m, timeBase), SlaveDevice(BANK, m.slaveId, regs, timeBase);
            NodeInv(a) && NodeInv(b) && OverALine(a, b, toB, toA, rest, m, regs)
  {
    hide NodeInv, Asking, Serving, Carries, M.Request, Serve, ReadWriteDone, F.Frame, Route, Silent, Polls;
    var a, b := MasterDevice(m, timeBase), SlaveDevice(BANK, m.slaveId, regs, timeBase);
    BankMeetsContract();
    MasterDeviceAsks(m, timeBase);
    SlaveDeviceServes(BANK, m.slaveId, regs, timeBase);
    LengthsOfReadWrite(m, regs);
    AllRouted(m.slaveId);
    MasterGatewaySlots();
    assert Joined(a, 0, 0, b, 0, 0);
    CarriedCharacters(Link([], 0), toB, RequestOf(m), Reload(timeBase));
    CarriedCharacters(Link([], 0), toA, AnswerOf(m, regs), Reload(timeBase));
    CommandCarriedOut(a, 0, 0, b, 0, 0, toB, toA, rest);
    ReadWriteCarriedOut(a, 0, 0, b, 0, 0, toB, toA, rest);
  }

  /** ... so there are two frames, one written by each device, with which the command runs its course. */
  lemma EveryReadWriteHasItsFrames(m: M.Master, regs: Bank, timeBase: nat, rest: seq<byte>)
    requires Completable(m, regs) && 0 < timeBase <= 1000 && |rest| == BUFFER_SIZE
    ensures var a, b := MasterDevice(m, timeBase), SlaveDevice(BANK, m.slaveId, regs, timeBase);
            && NodeInv(a) && NodeInv(b)
            && exists request, answer :: OverALine(a, b, [request], [answer], rest, m, regs)
  {
    hide NodeInv, Carries, M.Request, Serve, F.Frame, OverALine;
    LengthsOfReadWrite(m, regs);
    WholeFrameArrives(Link([], 0), RequestOf(m), Reload(timeBase));
    WholeFrameArrives(Link([], 0), AnswerOf(m, regs), Reload(timeBase));
    EveryReadWriteCarriedOut(m, regs, timeBase, [F.Frame(RequestOf(m))], [F.Frame(AnswerOf(m, regs))], rest);
  }
}
