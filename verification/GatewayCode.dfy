/** The gateway's code on its static table, proved against the functions of `Gateway` and
    `GatewayTable`. */
module GatewayCode {
  import opened Bytes
  import opened Gateway
  import opened GatewayTable

  class GatewayObjs {
    const gatewayObj: array<Gateway>

    ghost predicate Valid()
      reads this, gatewayObj
    {
      TableInv(gatewayObj[..])
    }

    constructor (total: nat)
      ensures fresh(gatewayObj) && gatewayObj.Length == total
      ensures Valid() && Reaches(total, [], gatewayObj[..])
    {
      gatewayObj := new Gateway[total](i => ClearGateway());
      new;
      ClearInv();
      assert gatewayObj[..] == seq(total, i => ClearGateway());
    }

    method Init()
      modifies gatewayObj
      ensures Valid() && gatewayObj[..] == seq(gatewayObj.Length, i => ClearGateway())
      ensures TableShape(old(gatewayObj[..])) ==> gatewayObj[..] == Apply(old(gatewayObj[..]), GatewayTable.Init)
    {
      for loopi := 0 to gatewayObj.Length
        invariant forall j :: 0 <= j < loopi ==> gatewayObj[j] == ClearGateway()
      {
        var clients: seq<Client>, servers: seq<Server> := [], [];
        for loopj := 0 to TOTAL_CLIENTS
          invariant clients == seq(loopj, i => ClearClient())
        {
          clients := clients + [ClearClient()];
        }
        for loopj := 0 to TOTAL_SERVERS
          invariant servers == seq(loopj, i => ClearServer())
        {
          servers := servers + [ClearServer()];
        }
        gatewayObj[loopi] := Gateway(false, clients, servers);
      }
      ClearInv();
    }

    method Open() returns (h: int)
      requires Valid()
      modifies gatewayObj
      ensures Valid() && gatewayObj[..] == Apply(old(gatewayObj[..]), GatewayTable.Open)
      ensures if h < 0 then h == -1 && forall j :: 0 <= j < gatewayObj.Length ==> old(gatewayObj[j].inUse)
              else
                && h < gatewayObj.Length && !old(gatewayObj[h].inUse) && HandleOk(gatewayObj[..], h)
                && (forall i :: 0 <= i < |gatewayObj[h].clients| ==> !gatewayObj[h].clients[i].inUse)
                && (forall s :: 0 <= s < |gatewayObj[h].servers| ==> !gatewayObj[h].servers[s].inUse)
    {
      ApplyInv(gatewayObj[..], GatewayTable.Open);
      ghost var t := gatewayObj[..];
      h := 0;
      while h < gatewayObj.Length && gatewayObj[h].inUse
        invariant 0 <= h <= gatewayObj.Length && gatewayObj[..] == t
        invariant forall j :: 0 <= j < h ==> t[j].inUse
        invariant FirstFree(GatewaysInUse(t), 0) == FirstFree(GatewaysInUse(t), h)
      {
        h := h + 1;
      }
      if h != gatewayObj.Length {
        var g := gatewayObj[h];
        var servers, clients := g.servers, g.clients;
        for loopi := 0 to |servers|
          invariant |servers| == |g.servers|
          invariant forall j :: 0 <= j < |servers| ==>
                      servers[j] == if j < loopi then g.servers[j].(inUse := false) else g.servers[j]
        {
          servers := servers[loopi := servers[loopi].(inUse := false)];
        }
        for loopi := 0 to |clients|
          invariant |clients| == |g.clients|
          invariant forall j :: 0 <= j < |clients| ==>
                      clients[j] == if j < loopi then g.clients[j].(inUse := false) else g.clients[j]
        {
          clients := clients[loopi := clients[loopi].(inUse := false)];
        }
        gatewayObj[h] := Gateway(true, clients, servers);
        assert gatewayObj[h] == Opened(g);
      } else {
        h := -1;
      }
    }

    /** The slave's id is asked from the slave module. */
    method AddSlave(h: int, slave: int, id: byte) returns (ret: int)
      requires Valid() && HandleOk(gatewayObj[..], h)
      modifies gatewayObj
      ensures Valid() && gatewayObj[..] == Apply(old(gatewayObj[..]), GatewayTable.AddSlave(h, slave, id))
      ensures ret == 0 || ret == -1
      ensures ret == 0 <==>
                h >= 0 && slave >= 0 && exists s :: 0 <= s < TOTAL_SERVERS && !old(gatewayObj[h].servers)[s].inUse
    {
      ApplyInv(gatewayObj[..], GatewayTable.AddSlave(h, slave, id));
      ret := -1;
      if 0 <= slave && 0 <= h {
        ret := TakeServer(h, SlaveModule, slave, id);
      }
    }

    method AddMaster(h: int, master: int) returns (ret: int)
      requires Valid() && HandleOk(gatewayObj[..], h)
      modifies gatewayObj
      ensures Valid() && gatewayObj[..] == Apply(old(gatewayObj[..]), GatewayTable.AddMaster(h, master))
      ensures ret == 0 || ret == -1
      ensures ret == 0 <==>
                h >= 0 && master >= 0 && exists i :: 0 <= i < TOTAL_CLIENTS && !old(gatewayObj[h].clients)[i].inUse
    {
      ApplyInv(gatewayObj[..], GatewayTable.AddMaster(h, master));
      ret := -1;
      if 0 <= h && 0 <= master {
        ret := TakeClient(h, MasterModule, master);
      }
    }

    method AddTransport(h: int, transport: int, kind: TransportType) returns (ret: int)
      requires Valid() && HandleOk(gatewayObj[..], h)
      modifies gatewayObj
      ensures Valid() && gatewayObj[..] == Apply(old(gatewayObj[..]), GatewayTable.AddTransport(h, transport, kind))
      ensures ret == 0 || ret == -1
      ensures h < 0 || transport < 0 || kind == InvalidTransport ==> ret == -1
      ensures h >= 0 && transport >= 0 && kind == SlaveTransport ==>
                (ret == 0 <==> exists i :: 0 <= i < TOTAL_CLIENTS && !old(gatewayObj[h].clients)[i].inUse)
      ensures h >= 0 && transport >= 0 && kind == MasterTransport ==>
                (ret == 0 <==> exists s :: 0 <= s < TOTAL_SERVERS && !old(gatewayObj[h].servers)[s].inUse)
    {
      ApplyInv(gatewayObj[..], GatewayTable.AddTransport(h, transport, kind));
      ret := -1;
      if 0 <= transport && 0 <= h {
        if kind == SlaveTransport {
          ret := TakeClient(h, TransportModule, transport);
        } else if kind == MasterTransport {
          ret := TakeServer(h, TransportModule, transport, 0);
        }
      }
    }

    /** The search for a free server slot. */
    method TakeServer(h: nat, kind: Module, handler: int, id: byte) returns (ret: int)
      requires h < gatewayObj.Length && |gatewayObj[h].servers| == TOTAL_SERVERS
      modifies gatewayObj
      ensures gatewayObj[..] == old(gatewayObj[..])[h := AddServer(old(gatewayObj[h]), kind, handler, id)]
      ensures ret == 0 || ret == -1
      ensures ret == 0 <==> exists s :: 0 <= s < TOTAL_SERVERS && !old(gatewayObj[h].servers)[s].inUse
    {
      ghost var g := gatewayObj[h];
      ret := -1;
      var loopi := 0;
      while loopi < TOTAL_SERVERS && ret != 0
        invariant 0 <= loopi <= TOTAL_SERVERS && (ret == -1 || ret == 0)
        invariant ret == -1 ==>
                    && gatewayObj[..] == old(gatewayObj[..])
                    && FirstFree(ServersInUse(g.servers), 0) == FirstFree(ServersInUse(g.servers), loopi)
        invariant ret == -1 ==> forall j :: 0 <= j < loopi ==> g.servers[j].inUse
        invariant ret == 0 ==> gatewayObj[..] == old(gatewayObj[..])[h := AddServer(g, kind, handler, id)]
        invariant ret == 0 ==> FirstFree(ServersInUse(g.servers), 0) < TOTAL_SERVERS
        decreases TOTAL_SERVERS - loopi, ret + 1
      {
        if !gatewayObj[h].servers[loopi].inUse {
          gatewayObj[h] := gatewayObj[h].(servers :=
              gatewayObj[h].servers[loopi := Server(true, kind, handler, id, false)]);
          ret := 0;
        }
        loopi := loopi + 1;
      }
    }

    /** The search for a free client slot. */
    method TakeClient(h: nat, kind: Module, handler: int) returns (ret: int)
      requires h < gatewayObj.Length && |gatewayObj[h].clients| == TOTAL_CLIENTS
      modifies gatewayObj
      ensures gatewayObj[..] == old(gatewayObj[..])[h := AddClient(old(gatewayObj[h]), kind, handler)]
      ensures ret == 0 || ret == -1
      ensures ret == 0 <==> exists i :: 0 <= i < TOTAL_CLIENTS && !old(gatewayObj[h].clients)[i].inUse
    {
      ghost var g := gatewayObj[h];
      ret := -1;
      var loopi := 0;
      while loopi < TOTAL_CLIENTS && ret != 0
        invariant 0 <= loopi <= TOTAL_CLIENTS && (ret == -1 || ret == 0)
        invariant ret == -1 ==>
                    && gatewayObj[..] == old(gatewayObj[..])
                    && FirstFree(ClientsInUse(g.clients), 0) == FirstFree(ClientsInUse(g.clients), loopi)
        invariant ret == -1 ==> forall j :: 0 <= j < loopi ==> g.clients[j].inUse
        invariant ret == 0 ==> gatewayObj[..] == old(gatewayObj[..])[h := AddClient(g, kind, handler)]
        invariant ret == 0 ==> FirstFree(ClientsInUse(g.clients), 0) < TOTAL_CLIENTS
        decreases TOTAL_CLIENTS - loopi, ret + 1
      {
        if !gatewayObj[h].clients[loopi].inUse {
          var client := gatewayObj[h].clients[loopi].(inUse := true, kind := kind, handler := handler);
          gatewayObj[h] := gatewayObj[h].(clients := gatewayObj[h].clients[loopi := client]);
          ret := 0;
        }
        loopi := loopi + 1;
      }
    }

    /** The two searches of the routing state. */
    method SearchServer(servers: seq<Server>, id: byte) returns (indexServer: int)
      requires |servers| == TOTAL_SERVERS
      ensures indexServer == Route(servers, id)
      ensures if indexServer >= 0 then GoesTo(servers, id, indexServer) else GoesNowhere(servers, id)
    {
      RouteIff(servers, id, Route(servers, id));
      indexServer := -1;
      var loopi := 0;
      while loopi < TOTAL_SERVERS && indexServer == -1
        invariant 0 <= loopi <= TOTAL_SERVERS && -1 <= indexServer
        invariant if indexServer == -1 then FirstServer(servers, id, 0) == FirstServer(servers, id, loopi)
                  else FirstServer(servers, id, 0) == indexServer
      {
        if servers[loopi].inUse && servers[loopi].id == id {
          indexServer := loopi;
        }
        loopi := loopi + 1;
      }
      loopi := 0;
      while loopi < TOTAL_SERVERS && indexServer == -1
        invariant 0 <= loopi <= TOTAL_SERVERS && -1 <= indexServer
        invariant indexServer == -1 ==>
                    FirstServer(servers, id, 0) == -1 && FirstServer(servers, 0, 0) == FirstServer(servers, 0, loopi)
        invariant indexServer != -1 ==> Route(servers, id) == indexServer
      {
        if servers[loopi].inUse && 0 == servers[loopi].id {
          indexServer := loopi;
        }
        loopi := loopi + 1;
      }
    }

    /** One call for a client: the switch on its state. */
    method ClientProcess(h: nat, i: nat, e: Env) returns (ret: bool)
      requires h < gatewayObj.Length && i < TOTAL_CLIENTS && Inv(gatewayObj[h])
      modifies gatewayObj
      ensures gatewayObj[..] == old(gatewayObj[..])[h := Process(old(gatewayObj[h]), i, e)]
      ensures ret == Pending(old(gatewayObj[h]), i, e) && Inv(gatewayObj[h])
    {
      ProcessExclusive(gatewayObj[h], i, e);
      ret := false;
      var g := gatewayObj[h];
      var client, servers := g.clients[i], g.servers;
      if client.inUse {
        match client.state {
          case Idle =>
            client := client.(id := e.id, buffer := e.buffer, size := e.size);
            if client.size >= REQ_PDU_MINLENGTH {
              client := client.(state := Routing);
              ret := true;
            }
          case Routing =>
            var indexServer := SearchServer(servers, client.id);
            if indexServer == -1 {
              client := client.(state := Idle);
            } else {
              client := client.(indexServer := indexServer, state := Sending);
              ret := true;
            }
          case Sending =>
            if !servers[client.indexServer].busy {
              servers := servers[client.indexServer := servers[client.indexServer].(busy := true)];
              client := client.(timeout := e.timeout, state := Waiting);
              ret := true;
            }
          case Waiting =>
            client := client.(id := e.id, buffer := e.buffer, size := e.size);
            if client.size >= RSP_PDU_MINLENGTH {
              servers := servers[client.indexServer := servers[client.indexServer].(busy := false)];
              client := client.(state := Idle);
              ret := true;
            } else if client.timeout != 0 {
              client := client.(timeout := client.timeout - 1);
            } else {
              servers := servers[client.indexServer := servers[client.indexServer].(busy := false)];
              client := client.(state := Idle);
            }
        }
      }
      gatewayObj[h] := Gateway(g.inUse, g.clients[i := client], servers);
    }

    method MainTask(h: int, env: nat -> nat -> Env)
      requires Valid() && HandleOk(gatewayObj[..], h)
      modifies gatewayObj
      ensures Valid() && gatewayObj[..] == Apply(old(gatewayObj[..]), GatewayTable.MainTask(h, env))
    {
      ApplyInv(gatewayObj[..], GatewayTable.MainTask(h, env));
      if 0 <= h {
        ghost var t, g := gatewayObj[..], gatewayObj[h];
        for loopi := 0 to TOTAL_CLIENTS
          invariant Inv(gatewayObj[h]) && gatewayObj[..] == t[h := gatewayObj[h]]
          invariant RunClients(g, 0, env) == RunClients(gatewayObj[h], loopi, env)
        {
          ProcessClient(h, loopi, env(loopi));
        }
      }
    }

    /** The do-while loop of the main task for one client. */
    method ProcessClient(h: nat, i: nat, env: nat -> Env)
      requires h < gatewayObj.Length && i < TOTAL_CLIENTS && Inv(gatewayObj[h])
      modifies gatewayObj
      ensures Inv(gatewayObj[h])
      ensures gatewayObj[..] == old(gatewayObj[..])[h := RunClient(old(gatewayObj[h]), i, env, 0)]
    {
      hide Exclusive, Step, Process, Pending;
      ghost var t, g := gatewayObj[..], gatewayObj[h];
      var countCall, more := 0, true;
      while more
        invariant Inv(gatewayObj[h]) && gatewayObj[..] == t[h := gatewayObj[h]] && 0 <= countCall <= LIMIT_CALLS
        invariant more ==>
                    countCall < LIMIT_CALLS && RunClient(g, i, env, 0) == RunClient(gatewayObj[h], i, env, countCall)
        invariant !more ==> RunClient(g, i, env, 0) == gatewayObj[h]
        decreases more, LIMIT_CALLS - countCall
      {
        var ret := ClientProcess(h, i, env(countCall));
        countCall := countCall + 1;
        more := ret && countCall < LIMIT_CALLS;
      }
    }
  }
}
