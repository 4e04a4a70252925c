/** Every command of a master that is the only client of its gateway ends, whatever the servers do. */
module MasterTermination {
  import opened Modbus
  import opened Slave
  import M = Master
  import P = MasterProperties
  import opened Gateway
  import opened Node
  import opened NodeProperties

  /** Client `i` is in use for master `h`, and no other client is in use. */
  ghost predicate OnlyMaster<A(!new)>(n: Node<A>, i: nat, h: nat) {
    && NodeInv(n) && i < TOTAL_CLIENTS && h < |n.masters|
    && n.gw.clients[i].inUse && n.gw.clients[i].kind == MasterModule && n.gw.clients[i].handler == h
    && forall j :: 0 <= j < TOTAL_CLIENTS && j != i ==> !n.gw.clients[j].inUse
  }

  /** Ticks a response may take. */
  function Patience<A>(n: Node<A>, h: nat): nat
    requires h < |n.masters| && n.timeBase > 0
  {
    n.masters[h].respTimeout / n.timeBase
  }

  /** Calls the client may still make with its current try. */
  function Rank(c: Client, patience: nat): nat {
    match c.state
    case Idle => 0
    case Routing => patience + 3
    case Sending => patience + 2
    case Waiting => c.timeout + 1
  }

  /** Calls left until the command must have ended: tries left first, then the state, then the timeout. */
  ghost function Measure<A(!new)>(n: Node<A>, i: nat, h: nat): nat
    requires OnlyMaster(n, i, h)
  {
    n.masters[h].retryCount * (Patience(n, h) + 4) + Rank(n.gw.clients[i], Patience(n, h))
  }

  /** A call of the only client of a gateway finds its server free. */
  lemma ServerIsFree<A(!new)>(n: Node<A>, i: nat, h: nat)
    requires OnlyMaster(n, i, h) && n.gw.clients[i].state == Sending
    ensures !n.gw.servers[n.gw.clients[i].indexServer].busy
  {
  }

  /** The master while a call goes on: untouched by the servers, tried when idle, answered when a
      response came. */
  ghost predicate MasterMoves<A(!new)>(n: Node<A>, n': Node<A>, i: nat, h: nat)
    requires OnlyMaster(n, i, h) && h < |n'.masters| && n'.timeBase == n.timeBase && |n'.gw.clients| == TOTAL_CLIENTS
  {
    var c, c', m, m', patience := n.gw.clients[i], n'.gw.clients[i], n.masters[h], n'.masters[h], Patience(n, h);
    match c.state
    case Idle => m' == M.Tried(m) && (c'.state == Idle || c'.state == Routing) && (m'.cmd != 0 ==> c'.state == Routing)
    case Routing => m' == m && (c'.state == Idle || c'.state == Sending)
    case Sending => m' == m && c'.state == Waiting && c'.timeout == patience
    case Waiting =>
      if c'.state == Idle then
        m' == m || exists id, pdu, size :: |pdu| == BUFFER_SIZE && m' == M.Response(m, id, pdu, size)
      else m' == m && c'.state == Waiting && c'.timeout == c.timeout - 1
  }

  lemma IdleMoves<A(!new)>(n: Node<A>, i: nat, h: nat, inp: Input)
    requires OnlyMaster(n, i, h) && InputOk(inp) && n.gw.clients[i].state == Idle
    ensures var n' := NodeStep(n, i, inp).node;
            && |n'.masters| == |n.masters| && n'.timeBase == n.timeBase && |n'.gw.clients| == TOTAL_CLIENTS
            && MasterMoves(n, n', i, h)
  {
    hide M.Sound;
    assert ClientOk(n, n.gw.clients[i]);
    MasterSound(n.masters[h], 0, n.gw.clients[i].buffer, 0);
    MasterSound(M.Tried(n.masters[h]), 0, n.gw.clients[i].buffer, 0);
  }

  lemma BusyMoves<A(!new)>(n: Node<A>, i: nat, h: nat, inp: Input)
    requires OnlyMaster(n, i, h) && InputOk(inp) && n.gw.clients[i].state in {Routing, Sending}
    ensures var n' := NodeStep(n, i, inp).node;
            && |n'.masters| == |n.masters| && n'.timeBase == n.timeBase && |n'.gw.clients| == TOTAL_CLIENTS
            && MasterMoves(n, n', i, h)
  {
    hide M.Sound;
    if n.gw.clients[i].state == Sending {
      ServerIsFree(n, i, h);
    }
  }

  lemma WaitingMoves<A(!new)>(n: Node<A>, i: nat, h: nat, inp: Input)
    requires OnlyMaster(n, i, h) && InputOk(inp) && n.gw.clients[i].state == Waiting
    ensures var n' := NodeStep(n, i, inp).node;
            && |n'.masters| == |n.masters| && n'.timeBase == n.timeBase && |n'.gw.clients| == TOTAL_CLIENTS
            && MasterMoves(n, n', i, h)
  {
    hide M.Sound, HearServer;
    NoCrossTalk(n, i, inp);
    HearServerSane(n, i, inp);
  }

  lemma OnlyMasterMoves<A(!new)>(n: Node<A>, i: nat, h: nat, inp: Input)
    requires OnlyMaster(n, i, h) && InputOk(inp)
    ensures OnlyMaster(NodeStep(n, i, inp).node, i, h) && NodeStep(n, i, inp).node.timeBase == n.timeBase
    ensures MasterMoves(n, NodeStep(n, i, inp).node, i, h)
  {
    hide Sane, Own, DistinctSlaves, Inv, NodeStep, MasterMoves;
    NoCrossTalk(n, i, inp);
    NodeStepKeepsInv(n, i, inp);
    StaysInUse(n, i, inp);
    match n.gw.clients[i].state
    case Idle => IdleMoves(n, i, h, inp);
    case Routing => BusyMoves(n, i, h, inp);
    case Sending => BusyMoves(n, i, h, inp);
    case Waiting => WaitingMoves(n, i, h, inp);
  }

  lemma StaysInUse<A(!new)>(n: Node<A>, i: nat, inp: Input)
    requires NodeInv(n) && InputOk(inp) && i < TOTAL_CLIENTS
    ensures var c, gw := n.gw.clients[i], NodeStep(n, i, inp).node.gw;
            && |gw.clients| == TOTAL_CLIENTS && gw.clients[i].inUse == c.inUse
            && gw.clients[i].kind == c.kind && gw.clients[i].handler == c.handler
  {
    hide NodeStep, Sane, Own, DistinctSlaves;
    var g, e := GatewayMoves(n, i, inp);
  }

  /** Whether the next call of the client builds a request for the pending command. */
  predicate Builds<A>(n: Node<A>, i: nat, h: nat)
    requires i < |n.gw.clients| && h < |n.masters|
  {
    n.gw.clients[i].state == Idle && n.masters[h].cmd != 0 && n.masters[h].retryCount > 0
  }

  /** The command of `m` has ended in `m'`, with one signal that names it. */
  predicate Ended(m: M.Master, m': M.Master) {
    m'.cmd == 0 && m'.log == m.log + [M.Completion(m.callback, m.slaveId, m.cmd, m'.exc)]
  }

  /** The command of `m` is still pending in `m'`, without a signal. */
  predicate StillPending(m: M.Master, m': M.Master) {
    m'.cmd == m.cmd && m'.slaveId == m.slaveId && m'.callback == m.callback && m'.log == m.log
  }

  /** A call of the only client ends the pending command with its signal, or takes it nearer to its end,
      whatever comes in from outside. */
  lemma CallMakesProgress<A(!new)>(n: Node<A>, i: nat, h: nat, inp: Input)
    requires OnlyMaster(n, i, h) && InputOk(inp) && n.masters[h].cmd != 0
    ensures var n' := NodeStep(n, i, inp).node;
            && OnlyMaster(n', i, h)
            && n'.masters[h].retryCount == n.masters[h].retryCount - (if Builds(n, i, h) then 1 else 0)
            && if n'.masters[h].cmd == 0 then Ended(n.masters[h], n'.masters[h])
               else StillPending(n.masters[h], n'.masters[h]) && Measure(n', i, h) < Measure(n, i, h)
  {
    hide Own, DistinctSlaves, Inv, NodeStep, Contract, M.Sound;
    OnlyMasterMoves(n, i, h, inp);
    TriedFewer(n.masters[h]);
    OneLess(n.masters[h].retryCount, Patience(n, h) + 4);
  }

  lemma OneLess(a: int, b: int)
    ensures (a - 1) * b == a * b - b
  {
  }

  lemma TriedFewer(m: M.Master)
    requires m.cmd != 0
    ensures var m' := M.Tried(m);
            if m.retryCount == 0 then Ended(m, m') else m' == m.(retryCount := m.retryCount - 1)
  {
  }

  /** Requests built for the master in a run. */
  ghost function RequestsBuilt<A(!new)>(n: Node<A>, i: nat, h: nat, calls: seq<NodeCall>): nat
    requires OnlyMaster(n, i, h) && CallsOk(calls)
    decreases |calls|
  {
    if calls == [] then 0
    else
      FirstCall(n, i, h, calls);
      (if calls[0].client == i && Builds(n, i, h) then 1 else 0)
      + RequestsBuilt(NodeStep(n, calls[0].client, calls[0].inp).node, i, h, calls[1..])
  }

  /** A call for a slot that is not in use does nothing. */
  lemma FirstCall<A(!new)>(n: Node<A>, i: nat, h: nat, calls: seq<NodeCall>)
    requires OnlyMaster(n, i, h) && CallsOk(calls) && calls != []
    ensures OnlyMaster(NodeStep(n, calls[0].client, calls[0].inp).node, i, h)
    ensures calls[0].client != i ==> NodeStep(n, calls[0].client, calls[0].inp).node == n
    ensures CallsOk(calls[1..])
  {
    hide Sane, Own, DistinctSlaves, Inv;
    if calls[0].client == i {
      OnlyMasterMoves(n, i, h, calls[0].inp);
    }
  }

  /** Master `h` at the start and during the first `k` calls of a run. */
  ghost predicate PendingUntil<A(!new)>(n: Node<A>, h: nat, calls: seq<NodeCall>, k: nat)
    requires NodeInv(n) && CallsOk(calls) && h < |n.masters| && k <= |calls|
  {
    forall j :: 0 <= j <= k ==>
      h < |NodeRun(n, calls[..j]).masters| && StillPending(n.masters[h], NodeRun(n, calls[..j]).masters[h])
  }

  /** A prefix of a run is its first call and a prefix of the rest. */
  lemma PrefixRun<A(!new)>(n: Node<A>, i: nat, h: nat, calls: seq<NodeCall>, j: nat)
    requires OnlyMaster(n, i, h) && CallsOk(calls) && 0 < j <= |calls|
    ensures var n1, tail := NodeStep(n, calls[0].client, calls[0].inp).node, calls[1..][..j - 1];
            && OnlyMaster(n1, i, h)
            && NodeRun(n, calls[..j]) == NodeRun(n1, tail)
            && CallsFor(calls[..j], i) == (if calls[0].client == i then 1 else 0) + CallsFor(tail, i)
            && RequestsBuilt(n, i, h, calls[..j]) == (if calls[0].client == i && Builds(n, i, h) then 1 else 0)
               + RequestsBuilt(n1, i, h, tail)
  {
    hide Sane, Own, DistinctSlaves, Inv, NodeStep, Builds;
    FirstCall(n, i, h, calls);
    assert calls[..j][1..] == calls[1..][..j - 1] && calls[..j][0] == calls[0];
  }

  /** What holds while the command is pending after the first call holds from before that call. */
  lemma PendingFromStart<A(!new)>(n: Node<A>, i: nat, h: nat, calls: seq<NodeCall>, rest: nat)
    requires OnlyMaster(n, i, h) && CallsOk(calls) && rest < |calls|
    requires var n1 := NodeStep(n, calls[0].client, calls[0].inp).node;
             OnlyMaster(n1, i, h) && StillPending(n.masters[h], n1.masters[h]) && PendingUntil(n1, h, calls[1..], rest)
    ensures rest + 1 <= |calls| && PendingUntil(n, h, calls, rest + 1)
  {
    hide Sane, Own, DistinctSlaves, Inv, NodeStep;
    forall j | 0 <= j <= rest + 1
      ensures h < |NodeRun(n, calls[..j]).masters| && StillPending(n.masters[h], NodeRun(n, calls[..j]).masters[h])
    {
      if j == 0 {
        assert calls[..0] == [];
      } else {
        PrefixRun(n, i, h, calls, j);
      }
    }
  }

  /** MAIN: a pending command of a master that is the only client ends within as many calls as the
      measure says, whatever the servers answer, whether they answer at all, and whether there is a
      route. Until that call it stays pending without a signal; that call gives exactly one, and no
      more requests were built than there were tries. */
  lemma {:induction false} CommandEnds<A(!new)>(n: Node<A>, i: nat, h: nat, calls: seq<NodeCall>) returns (k: nat)
    requires OnlyMaster(n, i, h) && CallsOk(calls) && n.masters[h].cmd != 0
    requires CallsFor(calls, i) > Measure(n, i, h)
    ensures k < |calls| && calls[k].client == i && CallsFor(calls[..k], i) <= Measure(n, i, h)
    ensures PendingUntil(n, h, calls, k)
    ensures var n' := NodeRun(n, calls[..k + 1]); OnlyMaster(n', i, h) && Ended(n.masters[h], n'.masters[h])
    ensures RequestsBuilt(n, i, h, calls[..k + 1]) <= n.masters[h].retryCount
    decreases |calls|
  {
    hide Sane, Own, DistinctSlaves, Inv, NodeStep, Builds;
    var j, inp := calls[0].client, calls[0].inp;
    FirstCall(n, i, h, calls);
    var n1 := NodeStep(n, j, inp).node;
    if j == i {
      CallMakesProgress(n, i, h, inp);
    }
    if j == i && n1.masters[h].cmd == 0 {
      k := 0;
      PrefixRun(n, i, h, calls, 1);
      assert calls[..0] == [] && calls[1..][..0] == [];
      assert NodeRun(n, []) == n;
    } else {
      var rest := CommandEnds(n1, i, h, calls[1..]);
      k := rest + 1;
      PrefixRun(n, i, h, calls, k);
      PrefixRun(n, i, h, calls, k + 1);
      PendingFromStart(n, i, h, calls, rest);
      assert calls[1..][..rest + 1] == calls[1..][..k];
    }
  }

  /** MAIN: a command issued while the client is idle ends within retryComm * (timeout + 4) calls, with
      one signal from issue to end and at most retryComm requests. */
  lemma IssuedCommandEnds<A(!new)>(n: Node<A>, i: nat, h: nat, issue: P.Event, calls: seq<NodeCall>) returns (k: nat)
    requires OnlyMaster(n, i, h) && n.gw.clients[i].state == Idle && CallsOk(calls)
    requires P.EventOk(issue) && P.AcceptedBy(n.masters[h], issue)
    requires CallsFor(calls, i) > n.masters[h].retryComm * (Patience(n, h) + 4)
    ensures var n0 := n.(masters := n.masters[h := P.After(n.masters[h], issue)]);
            && OnlyMaster(n0, i, h) && k < |calls| && PendingUntil(n0, h, calls, k)
            && CallsFor(calls[..k], i) <= n.masters[h].retryComm * (Patience(n, h) + 4)
            && RequestsBuilt(n0, i, h, calls[..k + 1]) <= n.masters[h].retryComm
            && var m' := NodeRun(n0, calls[..k + 1]).masters;
               h < |m'| && m'[h].cmd == 0 && m'[h].log == n.masters[h].log
                   + [M.Completion(issue.callback, issue.slaveId, issue.cmd, m'[h].exc)]
  {
    hide Contract;
    var n0 := n.(masters := n.masters[h := P.After(n.masters[h], issue)]);
    assert NodeInv(n0);
    k := CommandEnds(n0, i, h, calls);
  }
}
