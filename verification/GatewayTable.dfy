/** The table of gateways: initialisation, opening, adding modules, and the main task. */
module GatewayTable {
  import opened Bytes
  import opened Modbus
  import opened Gateway

  /** The kinds of transport: a slave transport brings requests in, a master transport takes them out. */
  datatype TransportType = InvalidTransport | MasterTransport | SlaveTransport

  function ClearClient(): Client {
    Client(false, NoModule, -1, 0, seq(BUFFER_SIZE, i => 0), 0, 0, -1, Idle)
  }

  function ClearServer(): Server {
    Server(false, NoModule, -1, 0, false)
  }

  function ClearGateway(): Gateway {
    Gateway(false, seq(TOTAL_CLIENTS, i => ClearClient()), seq(TOTAL_SERVERS, i => ClearServer()))
  }

  /** First free place from `from` on; the number of places if none is. */
  function FirstFree(used: seq<bool>, from: nat): (i: nat)
    requires from <= |used|
    ensures from <= i <= |used| && (i < |used| ==> !used[i]) && forall j :: from <= j < i ==> used[j]
    decreases |used| - from
  {
    if from == |used| || !used[from] then from else FirstFree(used, from + 1)
  }

  function ClientsInUse(cs: seq<Client>): seq<bool> {
    seq(|cs|, i requires 0 <= i < |cs| => cs[i].inUse)
  }

  function ServersInUse(ss: seq<Server>): seq<bool> {
    seq(|ss|, s requires 0 <= s < |ss| => ss[s].inUse)
  }

  function GatewaysInUse(t: seq<Gateway>): seq<bool> {
    seq(|t|, h requires 0 <= h < |t| => t[h].inUse)
  }

  /** A module becomes a client in the first free slot; nothing changes if there is none. */
  function AddClient(g: Gateway, kind: Module, handler: int): Gateway {
    var i := FirstFree(ClientsInUse(g.clients), 0);
    if i == |g.clients| then g
    else g.(clients := g.clients[i := g.clients[i].(inUse := true, kind := kind, handler := handler)])
  }

  function AddServer(g: Gateway, kind: Module, handler: int, id: byte): Gateway {
    var s := FirstFree(ServersInUse(g.servers), 0);
    if s == |g.servers| then g
    else g.(servers := g.servers[s := Server(true, kind, handler, id, false)])
  }

  /** All slots of a gateway that is opened are free. */
  function Opened(g: Gateway): Gateway {
    Gateway(true,
            seq(|g.clients|, i requires 0 <= i < |g.clients| => g.clients[i].(inUse := false)),
            seq(|g.servers|, i requires 0 <= i < |g.servers| => g.servers[i].(inUse := false)))
  }

  /** Calls for one client until none is pending, five at the most; `env(k)` is what call `k` gets. */
  function RunClient(g: Gateway, i: nat, env: nat -> Env, k: nat): Gateway
    requires Shape(g) && i < |g.clients| && k < LIMIT_CALLS
    decreases LIMIT_CALLS - k
  {
    ProcessShape(g, i, env(k));
    var g' := Process(g, i, env(k));
    if Pending(g, i, env(k)) && k + 1 < LIMIT_CALLS then RunClient(g', i, env, k + 1) else g'
  }

  /** The main task from client `i` on; `env(i)` belongs to client `i`. */
  function RunClients(g: Gateway, i: nat, env: nat -> nat -> Env): Gateway
    requires Shape(g) && i <= |g.clients|
    decreases |g.clients| - i
  {
    if i == |g.clients| then g
    else
      RunClientShape(g, i, env(i), 0);
      RunClients(RunClient(g, i, env(i), 0), i + 1, env)
  }

  lemma {:induction false} RunClientShape(g: Gateway, i: nat, env: nat -> Env, k: nat)
    requires Shape(g) && i < |g.clients| && k < LIMIT_CALLS
    ensures Shape(RunClient(g, i, env, k))
    decreases LIMIT_CALLS - k
  {
    ProcessShape(g, i, env(k));
    if Pending(g, i, env(k)) && k + 1 < LIMIT_CALLS {
      RunClientShape(Process(g, i, env(k)), i, env, k + 1);
    }
  }

  /** The operations of the module, on handles and with whatever the other modules produce. */
  datatype Op =
    | Init
    | Open
    | AddSlave(h: int, slave: int, id: byte)
    | AddMaster(h: int, master: int)
    | AddTransport(h: int, transport: int, kind: TransportType)
    | MainTask(h: int, env: nat -> nat -> Env)

  /** A handle is negative, and then ignored, or one that Open returned. */
  predicate HandleOk(t: seq<Gateway>, h: int) {
    h < 0 || (h < |t| && t[h].inUse)
  }

  predicate OpOk(t: seq<Gateway>, op: Op) {
    match op
    case Init => true
    case Open => true
    case AddSlave(h, _, _) => HandleOk(t, h)
    case AddMaster(h, _) => HandleOk(t, h)
    case AddTransport(h, _, _) => HandleOk(t, h)
    case MainTask(h, _) => HandleOk(t, h)
  }

  ghost predicate TableInv(t: seq<Gateway>) {
    forall h :: 0 <= h < |t| ==> Inv(t[h])
  }

  function AddTransportTo(g: Gateway, transport: int, kind: TransportType): Gateway {
    match kind
    case SlaveTransport => AddClient(g, TransportModule, transport)
    case MasterTransport => AddServer(g, TransportModule, transport, 0)
    case InvalidTransport => g
  }

  predicate TableShape(t: seq<Gateway>) {
    forall h :: 0 <= h < |t| ==> Shape(t[h])
  }

  function Apply(t: seq<Gateway>, op: Op): (t': seq<Gateway>)
    requires TableShape(t) && OpOk(t, op)
    ensures |t'| == |t|
  {
    match op
    case Init => seq(|t|, i => ClearGateway())
    case Open => var h := FirstFree(GatewaysInUse(t), 0); if h == |t| then t else t[h := Opened(t[h])]
    case AddSlave(h, slave, id) => if h < 0 || slave < 0 then t else t[h := AddServer(t[h], SlaveModule, slave, id)]
    case AddMaster(h, master) => if h < 0 || master < 0 then t else t[h := AddClient(t[h], MasterModule, master)]
    case AddTransport(h, transport, kind) =>
      if h < 0 || transport < 0 then t else t[h := AddTransportTo(t[h], transport, kind)]
    case MainTask(h, env) => if h < 0 then t else t[h := RunClients(t[h], 0, env)]
  }

  // Mutual exclusion over every run.

  lemma ClearInv()
    ensures Inv(ClearGateway())
  {
  }

  lemma OpenedInv(g: Gateway)
    requires Inv(g) && !g.inUse
    ensures Inv(Opened(g))
  {
    var g' := Opened(g);
    assert forall i, s :: !Waits(g', i, s);
    assert forall s :: 0 <= s < |g.servers| ==> !g'.servers[s].busy;
  }

  lemma AddClientInv(g: Gateway, kind: Module, handler: int)
    requires Inv(g) && g.inUse
    ensures Inv(AddClient(g, kind, handler))
  {
    var g' := AddClient(g, kind, handler);
    assert forall i, s :: Waits(g', i, s) <==> Waits(g, i, s);
  }

  lemma AddServerInv(g: Gateway, kind: Module, handler: int, id: byte)
    requires Inv(g) && g.inUse
    ensures Inv(AddServer(g, kind, handler, id))
  {
    var g' := AddServer(g, kind, handler, id);
    assert forall i, s :: Waits(g', i, s) <==> Waits(g, i, s);
  }

  lemma {:induction false} RunClientInv(g: Gateway, i: nat, env: nat -> Env, k: nat)
    requires Inv(g) && i < |g.clients| && k < LIMIT_CALLS
    ensures Inv(RunClient(g, i, env, k))
    decreases LIMIT_CALLS - k
  {
    ProcessExclusive(g, i, env(k));
    if Pending(g, i, env(k)) && k + 1 < LIMIT_CALLS {
      RunClientInv(Process(g, i, env(k)), i, env, k + 1);
    }
  }

  lemma {:induction false} RunClientsInv(g: Gateway, i: nat, env: nat -> nat -> Env)
    requires Inv(g) && i <= |g.clients|
    ensures Inv(RunClients(g, i, env))
    decreases |g.clients| - i
  {
    if i < |g.clients| {
      RunClientInv(g, i, env(i), 0);
      RunClientsInv(RunClient(g, i, env(i), 0), i + 1, env);
    }
  }

  lemma ApplyInv(t: seq<Gateway>, op: Op)
    requires TableInv(t) && OpOk(t, op)
    ensures TableInv(Apply(t, op))
  {
    match op
    case Init => ClearInv();
    case Open =>
      var h := FirstFree(GatewaysInUse(t), 0);
      if h < |t| {
        OpenedInv(t[h]);
      }
    case AddSlave(h, slave, id) =>
      if h >= 0 {
        AddServerInv(t[h], SlaveModule, slave, id);
      }
    case AddMaster(h, master) =>
      if h >= 0 {
        AddClientInv(t[h], MasterModule, master);
      }
    case AddTransport(h, transport, kind) =>
      if h >= 0 {
        AddClientInv(t[h], TransportModule, transport);
        AddServerInv(t[h], TransportModule, transport, 0);
      }
    case MainTask(h, env) =>
      if h >= 0 {
        RunClientsInv(t[h], 0, env);
      }
  }

  /** The table `t` is what the operations `ops` make of a table of `n` gateways after Init. */
  ghost predicate Reaches(n: nat, ops: seq<Op>, t: seq<Gateway>)
    decreases |ops|
  {
    if ops == [] then t == seq(n, i => ClearGateway())
    else
      exists p: seq<Gateway> :: Reaches(n, ops[..|ops| - 1], p) && TableShape(p) &&
        OpOk(p, ops[|ops| - 1]) && t == Apply(p, ops[|ops| - 1])
  }

  /** MAIN: after every run of the operations on handles returned by Open, and whatever the modules
      produced, a server is busy exactly if one client waits for it, never two; and every client that
      sends or waits has a server in use. */
  lemma {:induction false} EveryRunIsExclusive(n: nat, ops: seq<Op>, t: seq<Gateway>)
    requires Reaches(n, ops, t)
    ensures TableInv(t)
    decreases |ops|
  {
    if ops == [] {
      ClearInv();
    } else {
      var last := ops[|ops| - 1];
      var p: seq<Gateway> :| Reaches(n, ops[..|ops| - 1], p) && TableShape(p) && OpOk(p, last) && t == Apply(p, last);
      EveryRunIsExclusive(n, ops[..|ops| - 1], p);
      ApplyInv(p, last);
    }
  }
}
