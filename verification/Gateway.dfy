/** The gateway: clients whose messages are routed to servers, one state machine for each client and
    a busy flag for each server. The modules behind the function pointers appear as the message and
    timeout they produce; everything proved here holds whatever they produce. */
module Gateway {
  import opened Bytes

  const TOTAL_SERVERS: nat := 2
  const TOTAL_CLIENTS: nat := 2
  const LIMIT_CALLS: nat := 5
  const REQ_PDU_MINLENGTH: nat := 1
  const RSP_PDU_MINLENGTH: nat := 2

  datatype ClientState = Idle | Routing | Sending | Waiting

  /** The module whose functions a client or server slot points to. */
  datatype Module = NoModule | MasterModule | SlaveModule | TransportModule

  datatype Client = Client(
    inUse: bool, kind: Module, handler: int, id: byte, buffer: seq<byte>, size: nat,
    timeout: nat, indexServer: int, state: ClientState)

  datatype Server = Server(inUse: bool, kind: Module, handler: int, id: byte, busy: bool)

  datatype Gateway = Gateway(inUse: bool, clients: seq<Client>, servers: seq<Server>)

  /** What one call of the state machine gets from the modules: the id, buffer and size of the client
      after `recvMsg`, and the response timeout in ticks. */
  datatype Env = Env(id: byte, buffer: seq<byte>, size: nat, timeout: nat)

  /** A call of the state machine: the client it is for, and what comes in with it. */
  datatype ClientCall<+I> = ClientCall(client: nat, inp: I)

  /** Number of calls for client `i`. */
  function CallsFor<I>(calls: seq<ClientCall<I>>, i: nat): nat {
    if calls == [] then 0 else (if calls[0].client == i then 1 else 0) + CallsFor(calls[1..], i)
  }

  // One call for one client: new client, new servers, and whether more is pending.

  datatype Outcome = Outcome(client: Client, servers: seq<Server>, pending: bool)

  function StepIdle(c: Client, servers: seq<Server>, e: Env): Outcome {
    var c' := c.(id := e.id, buffer := e.buffer, size := e.size);
    if e.size >= REQ_PDU_MINLENGTH then Outcome(c'.(state := Routing), servers, true)
    else Outcome(c', servers, false)
  }

  /** First server in use with the given id from `from` on, or -1. */
  function FirstServer(servers: seq<Server>, id: byte, from: nat): (s: int)
    requires from <= |servers|
    ensures -1 <= s < |servers|
    ensures s >= 0 ==> from <= s && servers[s].inUse && servers[s].id == id
    ensures forall j :: from <= j < (if s >= 0 then s else |servers|) ==> !(servers[j].inUse && servers[j].id == id)
    decreases |servers| - from
  {
    if from == |servers| then -1
    else if servers[from].inUse && servers[from].id == id then from
    else FirstServer(servers, id, from + 1)
  }

  /** The server of a message: the one of that id, else one of id 0 (a transport), else none. */
  function Route(servers: seq<Server>, id: byte): (s: int)
    ensures -1 <= s < |servers|
    ensures s >= 0 ==> servers[s].inUse
  {
    var s := FirstServer(servers, id, 0);
    if s >= 0 then s else FirstServer(servers, 0, 0)
  }

  /** None of the first `n` servers is in use for `id`. */
  predicate NoneFor(servers: seq<Server>, id: byte, n: nat)
    requires n <= |servers|
  {
    forall j :: 0 <= j < n ==> !(servers[j].inUse && servers[j].id == id)
  }

  /** Where a message for `id` goes: to the first server in use of that id; if there is none, to the first
      one in use of id 0. */
  predicate GoesTo(servers: seq<Server>, id: byte, s: int) {
    && 0 <= s < |servers| && servers[s].inUse
    && if servers[s].id == id then NoneFor(servers, id, s)
       else servers[s].id == 0 && NoneFor(servers, 0, s) && NoneFor(servers, id, |servers|)
  }

  predicate GoesNowhere(servers: seq<Server>, id: byte) {
    NoneFor(servers, id, |servers|) && NoneFor(servers, 0, |servers|)
  }

  /** MAIN: the server with the message's own id comes before the one of id 0, in whatever slots they are. */
  lemma RouteIff(servers: seq<Server>, id: byte, s: int)
    ensures Route(servers, id) == s <==> GoesTo(servers, id, s) || (s == -1 && GoesNowhere(servers, id))
  {
  }

  function StepRouting(c: Client, servers: seq<Server>): Outcome {
    var s := Route(servers, c.id);
    if s >= 0 then Outcome(c.(indexServer := s, state := Sending), servers, true)
    else Outcome(c.(state := Idle), servers, false)
  }

  function SetBusy(servers: seq<Server>, s: int, busy: bool): seq<Server>
    requires 0 <= s < |servers|
  {
    servers[s := servers[s].(busy := busy)]
  }

  predicate HasServer(c: Client, servers: seq<Server>) {
    0 <= c.indexServer < |servers|
  }

  function StepSending(c: Client, servers: seq<Server>, e: Env): Outcome
    requires HasServer(c, servers)
  {
    if servers[c.indexServer].busy then Outcome(c, servers, false)
    else Outcome(c.(timeout := e.timeout, state := Waiting), SetBusy(servers, c.indexServer, true), true)
  }

  function StepWaiting(c: Client, servers: seq<Server>, e: Env): Outcome
    requires HasServer(c, servers)
  {
    var c' := c.(id := e.id, buffer := e.buffer, size := e.size);
    if e.size >= RSP_PDU_MINLENGTH then
      Outcome(c'.(state := Idle), SetBusy(servers, c.indexServer, false), true)
    else if c.timeout != 0 then Outcome(c'.(timeout := c.timeout - 1), servers, false)
    else Outcome(c'.(state := Idle), SetBusy(servers, c.indexServer, false), false)
  }

  function Step(c: Client, servers: seq<Server>, e: Env): Outcome
    requires c.state in {Sending, Waiting} ==> HasServer(c, servers)
  {
    if !c.inUse then Outcome(c, servers, false)
    else
      match c.state
      case Idle => StepIdle(c, servers, e)
      case Routing => StepRouting(c, servers)
      case Sending => StepSending(c, servers, e)
      case Waiting => StepWaiting(c, servers, e)
  }

  // The gateway.

  /** Sizes, and no use of a slot that is not in use. */
  predicate Shape(g: Gateway) {
    && |g.clients| == TOTAL_CLIENTS && |g.servers| == TOTAL_SERVERS
    && (forall i :: 0 <= i < |g.clients| && g.clients[i].state in {Sending, Waiting} ==>
          HasServer(g.clients[i], g.servers) && g.servers[g.clients[i].indexServer].inUse)
    && (forall i :: 0 <= i < |g.clients| && !g.clients[i].inUse ==> g.clients[i].state == Idle)
    && (forall s :: 0 <= s < |g.servers| && !g.servers[s].inUse ==> !g.servers[s].busy)
    && (!g.inUse ==> forall i :: 0 <= i < |g.clients| ==> !g.clients[i].inUse)
    && (!g.inUse ==> forall s :: 0 <= s < |g.servers| ==> !g.servers[s].inUse)
  }

  /** Client `i` waits for server `s`. */
  predicate Waits(g: Gateway, i: int, s: int) {
    0 <= i < |g.clients| && g.clients[i].state == Waiting && g.clients[i].indexServer == s
  }

  /** A server is busy exactly if a client waits for it, and then exactly one does. */
  ghost predicate Exclusive(g: Gateway) {
    && (forall s :: 0 <= s < |g.servers| ==> (g.servers[s].busy <==> exists i :: Waits(g, i, s)))
    && (forall i, j, s :: Waits(g, i, s) && Waits(g, j, s) ==> i == j)
  }

  ghost predicate Inv(g: Gateway) {
    Shape(g) && Exclusive(g)
  }

  /** One call for client `i`. */
  function Process(g: Gateway, i: nat, e: Env): Gateway
    requires Shape(g) && i < |g.clients|
  {
    var o := Step(g.clients[i], g.servers, e);
    g.(clients := g.clients[i := o.client], servers := o.servers)
  }

  function Pending(g: Gateway, i: nat, e: Env): bool
    requires Shape(g) && i < |g.clients|
  {
    Step(g.clients[i], g.servers, e).pending
  }

  lemma ProcessShape(g: Gateway, i: nat, e: Env)
    requires Shape(g) && i < |g.clients|
    ensures Shape(Process(g, i, e))
  {
  }

  /** MAIN: one call for a client keeps mutual exclusion, whatever the modules produce. */
  lemma ProcessExclusive(g: Gateway, i: nat, e: Env)
    requires Inv(g) && i < |g.clients|
    ensures Inv(Process(g, i, e))
  {
    ProcessShape(g, i, e);
    var g', c, s := Process(g, i, e), g.clients[i], g.clients[i].indexServer;
    forall j, t | j != i
      ensures Waits(g', j, t) <==> Waits(g, j, t)
    {
    }
    if c.inUse && c.state == Sending && !g.servers[s].busy {
      assert forall j :: !Waits(g, j, s);
      assert Waits(g', i, s);
    } else if c.inUse && c.state == Waiting {
      assert Waits(g, i, s);
      assert forall t :: Waits(g', i, t) ==> t == s;
    } else {
      assert forall t :: !Waits(g', i, t);
      assert forall t :: !Waits(g, i, t) || !c.inUse || c.state == Sending;
    }
  }
}
