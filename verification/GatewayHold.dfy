/** How long a client holds a server. */
module GatewayHold {
  import opened Gateway
  import opened GatewayTable

  predicate ForClients(calls: seq<ClientCall<Env>>) {
    forall k :: 0 <= k < |calls| ==> calls[k].client < TOTAL_CLIENTS
  }

  function Calls(g: Gateway, calls: seq<ClientCall<Env>>): (g': Gateway)
    requires Shape(g) && ForClients(calls)
    ensures Shape(g')
    decreases |calls|
  {
    if calls == [] then g
    else
      ProcessShape(g, calls[0].client, calls[0].inp);
      Calls(Process(g, calls[0].client, calls[0].inp), calls[1..])
  }

  /** Client `i` holds the server it waits for. */
  predicate Holds(g: Gateway, i: nat, s: int)
    requires Shape(g)
  {
    Waits(g, i, s) && 0 <= s < |g.servers| && g.servers[s].busy
  }

  /** MAIN: in every interleaving of calls, a client that waits with timeout `t` keeps its server until
      one of its own next t + 1 calls, and that call leaves it idle and the server free. */
  lemma {:induction false} BoundedHold(g: Gateway, i: nat, s: int, calls: seq<ClientCall<Env>>) returns (k: nat)
    requires Inv(g) && ForClients(calls) && Holds(g, i, s)
    requires CallsFor(calls, i) > g.clients[i].timeout
    ensures k < |calls| && calls[k].client == i
    ensures CallsFor(calls[..k], i) <= g.clients[i].timeout
    ensures forall j :: 0 <= j <= k ==> Holds(Calls(g, calls[..j]), i, s)
    ensures var g' := Calls(g, calls[..k + 1]); g'.clients[i].state == Idle && !g'.servers[s].busy
    decreases |calls|
  {
    hide Exclusive, Process, Step, Shape, Holds;
    HolderInRange(g, i, s);
    SomeCall(calls, i, g.clients[i].timeout);
    var first, e := calls[0].client, calls[0].inp;
    var g1 := Process(g, first, e);
    ProcessExclusive(g, first, e);
    TwoClients(g1);
    if first == i && g1.clients[i].state == Idle {
      k := 0;
      Released(g, i, s, e);
      assert calls[..1] == [calls[0]];
      assert Calls(g, calls[..1]) == Calls(g1, calls[..1][1..]) == g1;
      assert calls[..0] == [];
    } else {
      StillHeld(g, i, s, first, e);
      var rest := BoundedHold(g1, i, s, calls[1..]);
      k := rest + 1;
      PrefixCount(calls, rest, i);
      forall j | 0 <= j <= k
        ensures Holds(Calls(g, calls[..j]), i, s)
      {
        if j > 0 {
          PrefixCalls(g, calls, j);
        }
      }
      PrefixCalls(g, calls, k + 1);
    }
  }

  lemma SomeCall(calls: seq<ClientCall<Env>>, i: nat, n: nat)
    requires CallsFor(calls, i) > n
    ensures calls != []
  {
  }

  lemma HolderInRange(g: Gateway, i: nat, s: int)
    requires Shape(g) && Holds(g, i, s)
    ensures i < |g.clients| == TOTAL_CLIENTS
  {
  }

  lemma TwoClients(g: Gateway)
    requires Shape(g)
    ensures |g.clients| == TOTAL_CLIENTS
  {
  }

  /** A call that leaves the client idle leaves its server free. */
  lemma Released(g: Gateway, i: nat, s: int, e: Env)
    requires Shape(g) && i < |g.clients| && Holds(g, i, s) && Process(g, i, e).clients[i].state == Idle
    ensures !Process(g, i, e).servers[s].busy
  {
  }

  lemma PrefixCalls(g: Gateway, calls: seq<ClientCall<Env>>, j: nat)
    requires Shape(g) && ForClients(calls) && 0 < j <= |calls|
    ensures Shape(Process(g, calls[0].client, calls[0].inp))
    ensures Calls(g, calls[..j]) == Calls(Process(g, calls[0].client, calls[0].inp), calls[1..][..j - 1])
  {
    ProcessShape(g, calls[0].client, calls[0].inp);
    assert calls[..j][1..] == calls[1..][..j - 1];
  }

  lemma PrefixCount(calls: seq<ClientCall<Env>>, rest: nat, i: nat)
    requires rest < |calls|
    ensures CallsFor(calls[..rest + 1], i) == (if calls[0].client == i then 1 else 0) + CallsFor(calls[1..][..rest], i)
  {
    assert calls[..rest + 1][1..] == calls[1..][..rest];
  }

  /** A call that does not end the wait keeps the server, and uses one unit if it is the client's own. */
  lemma StillHeld(g: Gateway, i: nat, s: int, first: nat, e: Env)
    requires Inv(g) && first < TOTAL_CLIENTS && Holds(g, i, s)
    requires first == i ==> Process(g, i, e).clients[i].state != Idle
    ensures Shape(Process(g, first, e)) && Holds(Process(g, first, e), i, s)
    ensures Process(g, first, e).clients[i].timeout == if first == i then g.clients[i].timeout - 1
            else g.clients[i].timeout
  {
    ProcessShape(g, first, e);
    if first != i {
      assert !Waits(g, first, s);
    }
  }

  /** `n` calls for client `i`, with what call `k` of the main task and the ones after it get. */
  function OwnCalls(i: nat, env: nat -> Env, k: nat, n: nat): (calls: seq<ClientCall<Env>>)
    requires i < TOTAL_CLIENTS
    ensures ForClients(calls)
  {
    seq(n, j requires 0 <= j < n => ClientCall(i, env(k + j)))
  }

  lemma OwnCallsFirst(g: Gateway, i: nat, env: nat -> Env, k: nat, n: nat)
    requires Shape(g) && i < TOTAL_CLIENTS
    ensures Calls(g, OwnCalls(i, env, k, 0)) == g
    ensures Shape(Process(g, i, env(k)))
    ensures Calls(g, OwnCalls(i, env, k, n + 1)) == Calls(Process(g, i, env(k)), OwnCalls(i, env, k + 1, n))
  {
    ProcessShape(g, i, env(k));
    assert OwnCalls(i, env, k, n + 1)[1..] == OwnCalls(i, env, k + 1, n);
  }

  /** MAIN: a run of the main task for a client is at least one and at most five calls for it, each of them
      made exactly if the one before left more pending. */
  lemma {:induction false} RunIsCalls(g: Gateway, i: nat, env: nat -> Env, k: nat) returns (n: nat)
    requires Shape(g) && i < |g.clients| && k < LIMIT_CALLS
    ensures 0 < n <= LIMIT_CALLS - k && RunClient(g, i, env, k) == Calls(g, OwnCalls(i, env, k, n))
    ensures forall j: nat :: j < n && j + 1 < LIMIT_CALLS - k ==>
              (Pending(Calls(g, OwnCalls(i, env, k, j)), i, env(k + j)) <==> j + 1 < n)
    decreases LIMIT_CALLS - k
  {
    hide Process, Pending, Calls, OwnCalls;
    TwoClients(g);
    OwnCallsFirst(g, i, env, k, 0);
    var g' := Process(g, i, env(k));
    TwoClients(g');
    OwnCallsFirst(g', i, env, k + 1, 0);
    n := 1;
    if Pending(g, i, env(k)) && k + 1 < LIMIT_CALLS {
      var later := RunIsCalls(g', i, env, k + 1);
      n := later + 1;
      OwnCallsFirst(g, i, env, k, later);
      forall j: nat | j < n && j + 1 < LIMIT_CALLS - k
        ensures Pending(Calls(g, OwnCalls(i, env, k, j)), i, env(k + j)) <==> j + 1 < n
      {
        if j > 0 {
          OwnCallsFirst(g, i, env, k, j - 1);
          assert (k + 1) + (j - 1) == k + j;
        }
      }
    }
  }

  /** One call of a run, and the rest of it if the call left more pending. */
  lemma RunStep(g: Gateway, i: nat, env: nat -> Env, k: nat, g': Gateway, more: bool)
    requires Shape(g) && i < |g.clients| && k < LIMIT_CALLS
    requires g' == Process(g, i, env(k)) && more == Pending(g, i, env(k))
    ensures Shape(g') && |g'.clients| == |g.clients|
    ensures RunClient(g, i, env, k) == if more && k + 1 < LIMIT_CALLS then RunClient(g', i, env, k + 1) else g'
  {
    ProcessShape(g, i, env(k));
  }

  /** Client `i` of `g` becomes `c`, and the servers `servers`. */
  function Changed(g: Gateway, i: nat, c: Client, servers: seq<Server>): Gateway
    requires i < |g.clients|
  {
    g.(clients := g.clients[i := c], servers := servers)
  }

  /** The client with the message of a call. */
  function Told(c: Client, e: Env): Client {
    c.(id := e.id, buffer := e.buffer, size := e.size)
  }

  function InState(c: Client, state: ClientState): Client {
    c.(state := state)
  }

  /** The client whose request goes to server `s`, with `timeout` to wait. */
  function Bound(c: Client, s: int, timeout: nat, state: ClientState): Client {
    c.(indexServer := s, timeout := timeout, state := state)
  }

  /** MAIN: what one run of the main task makes of a request an idle client receives: routed, sent and
      waited for in the same run if its server is free, and answered in it if the response is there, with
      one more look for a request; kept for later if the server is busy; dropped if there is none. */
  lemma RunOfRequest(g: Gateway, i: nat, env: nat -> Env, s: int)
    requires Shape(g) && i < |g.clients| && g.clients[i].inUse && g.clients[i].state == Idle && env(0).size >= 1
    requires GoesTo(g.servers, env(0).id, s) || (s == -1 && GoesNowhere(g.servers, env(0).id))
    ensures var c := Told(g.clients[i], env(0));
            RunClient(g, i, env, 0) ==
              if s == -1 then Changed(g, i, c, g.servers)
              else if g.servers[s].busy then Changed(g, i, Bound(c, s, c.timeout, Sending), g.servers)
              else AfterSending(g, i, env, s, c)
  {
    hide RunClient, Route, AfterSending;
    var c := InState(Told(g.clients[i], env(0)), Routing);
    RouteIff(g.servers, env(0).id, s);
    var g1 := Changed(g, i, c, g.servers);
    RunStep(g, i, env, 0, g1, true);
    if s == -1 {
      RunStep(g1, i, env, 1, Changed(g, i, InState(c, Idle), g.servers), false);
    } else {
      var g2 := Changed(g, i, Bound(c, s, c.timeout, Sending), g.servers);
      RunStep(g1, i, env, 1, g2, true);
      if g.servers[s].busy {
        RunStep(g2, i, env, 2, g2, false);
      } else {
        RunOfSent(g, g2, i, env, s, Told(g.clients[i], env(0)));
      }
    }
  }

  /** The gateway after the calls from the third on, if the third sends the request of `c` to server `s`. */
  function AfterSending(g: Gateway, i: nat, env: nat -> Env, s: nat, c: Client): Gateway
    requires i < |g.clients| && s < |g.servers|
  {
    var sent := Bound(c, s, env(2).timeout, Waiting);
    if env(3).size >= 2 then
      Changed(g, i, InState(Told(sent, env(4)), if env(4).size >= 1 then Routing else Idle), g.servers)
    else if env(2).timeout == 0 then Changed(g, i, InState(Told(sent, env(3)), Idle), g.servers)
    else
      Changed(g, i, Bound(Told(sent, env(3)), s, env(2).timeout - 1, Waiting), SetBusy(g.servers, s, true))
  }

  lemma RunOfSent(g: Gateway, g2: Gateway, i: nat, env: nat -> Env, s: nat, c: Client)
    requires Shape(g) && Shape(g2) && i < |g.clients| && s < |g.servers| && !g.servers[s].busy && c.inUse
    requires g2 == Changed(g, i, Bound(c, s, c.timeout, Sending), g.servers)
    ensures RunClient(g2, i, env, 2) == AfterSending(g, i, env, s, c)
  {
    hide RunClient, Shape;
    TwoClients(g);
    var taken := SetBusy(g.servers, s, true);
    var sent := Bound(c, s, env(2).timeout, Waiting);
    var g3 := Changed(g, i, sent, taken);
    RunStep(g2, i, env, 2, g3, true);
    assert SetBusy(taken, s, false) == g.servers;
    if env(3).size >= 2 {
      var g4 := Changed(g, i, InState(Told(sent, env(3)), Idle), g.servers);
      RunStep(g3, i, env, 3, g4, true);
      var c5 := InState(Told(sent, env(4)), if env(4).size >= 1 then Routing else Idle);
      RunStep(g4, i, env, 4, Changed(g, i, c5, g.servers), env(4).size >= 1);
    } else if env(2).timeout == 0 {
      RunStep(g3, i, env, 3, Changed(g, i, InState(Told(sent, env(3)), Idle), g.servers), false);
    } else {
      RunStep(g3, i, env, 3, Changed(g, i, Bound(Told(sent, env(3)), s, env(2).timeout - 1, Waiting), taken), false);
    }
  }

  /** MAIN: one run of the main task gives each client exactly one run of calls of its own, from the state
      the client was in before, whatever the runs of the clients before and after it do. */
  lemma {:induction false} EveryClientHasItsRun(g: Gateway, k: nat, env: nat -> nat -> Env, i: nat)
      returns (turn: Gateway)
    requires Shape(g) && k <= i < |g.clients|
    ensures Shape(turn) && |turn.clients| == |g.clients| && turn.clients[i] == g.clients[i]
    ensures |RunClients(g, k, env).clients| == |g.clients|
    ensures RunClients(g, k, env).clients[i] == RunClient(turn, i, env(i), 0).clients[i]
    decreases |g.clients| - k
  {
    RunClientShape(g, k, env(k), 0);
    OthersUntouched(g, k, env(k), 0);
    var g' := RunClient(g, k, env(k), 0);
    if k == i {
      turn := g;
      LaterRuns(g', k + 1, env, i);
    } else {
      turn := EveryClientHasItsRun(g', k + 1, env, i);
    }
  }

  lemma {:induction false} OthersUntouched(g: Gateway, i: nat, env: nat -> Env, k: nat)
    requires Shape(g) && i < |g.clients| && k < LIMIT_CALLS
    ensures var g' := RunClient(g, i, env, k);
            |g'.clients| == |g.clients| && forall j :: 0 <= j < |g.clients| && j != i ==> g'.clients[j] == g.clients[j]
    decreases LIMIT_CALLS - k
  {
    ProcessShape(g, i, env(k));
    if Pending(g, i, env(k)) && k + 1 < LIMIT_CALLS {
      OthersUntouched(Process(g, i, env(k)), i, env, k + 1);
    }
  }

  lemma {:induction false} LaterRuns(g: Gateway, k: nat, env: nat -> nat -> Env, i: nat)
    requires Shape(g) && i < k <= |g.clients|
    ensures |RunClients(g, k, env).clients| == |g.clients| && RunClients(g, k, env).clients[i] == g.clients[i]
    decreases |g.clients| - k
  {
    if k < |g.clients| {
      RunClientShape(g, k, env(k), 0);
      OthersUntouched(g, k, env(k), 0);
      LaterRuns(RunClient(g, k, env(k), 0), k + 1, env, i);
    }
  }

  /** MAIN: in one run of the main task a waiting client without a response is called exactly once and
      uses exactly one unit of its timeout, or gives up at zero. */
  lemma QuietTick(g: Gateway, i: nat, env: nat -> Env)
    requires Shape(g) && i < |g.clients| && g.clients[i].inUse && g.clients[i].state == Waiting
    requires env(0).size < 2
    ensures RunClient(g, i, env, 0) == Process(g, i, env(0))
    ensures var c := RunClient(g, i, env, 0).clients[i];
            if g.clients[i].timeout == 0 then c.state == Idle
            else c.state == Waiting && c.timeout == g.clients[i].timeout - 1
  {
  }
}
