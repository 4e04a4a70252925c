/** The tries of a command on the device of its master: whatever the line brings, the calls of the gateway
    make of the device what `Retries` says, try by try. */
module RetriesOnDevices {
  import opened Bytes
  import opened Modbus
  import F = AsciiFrame
  import opened AsciiLink
  import S = AsciiStream
  import Listening
  import opened Oversized
  import opened Slave
  import opened RegisterFile
  import M = Master
  import opened Gateway
  import opened Node
  import opened NodeProperties
  import E = EndToEnd
  import opened TwoNodes
  import R = Retries
  import D = FreshDevices

  /** Client `i` of master `h` is idle and the free link its slave id is routed to, its buffer and its master
      are those of `w`. */
  ghost predicate OnDevice<A(!new), B>(n: Node<A>, i: nat, h: nat, w: R.Wire<B>) {
    && NodeInv(n) && i < TOTAL_CLIENTS && h < |n.masters| && R.Fine(w)
    && n.masters[h] == w.master && n.gw.clients[i].buffer == w.buffer
    && n.gw.clients[i].inUse && n.gw.clients[i].kind == MasterModule && n.gw.clients[i].handler == h
    && Rests(n, i, Route(n.gw.servers, w.master.slaveId)) && ServerLink(n, w.master.slaveId) == Some(w.link)
  }

  lemma DeviceAsks<A(!new), B>(n: Node<A>, i: nat, h: nat, w: R.Wire<B>)
    requires OnDevice(n, i, h, w) && R.TriesLeft(w.master) && Fits(RequestOf(w.master))
    ensures AboutToAsk(n, i, h) && n.timeBase > 0
    ensures LinkAfterRequest(n, i, h) == Overwritten(w.link, R.NextTry(w.master))
  {
    hide Own, DistinctSlaves, Exclusive, Contract, Route, Send, M.Request;
    R.AskedAgain(w.master);
  }

  /** The polls of a try last until a message is heard, or as long as the master waits. */
  predicate Enough<A>(w: R.Wire<A>, polls: seq<seq<byte>>, timeBase: nat)
    requires R.Fine(w) && R.TriesLeft(w.master) && timeBase > 0
  {
    && 0 < |polls| <= w.master.respTimeout / timeBase + 1
    && match Listening.Listen(Overwritten(w.link, R.NextTry(w.master)), polls, Reload(timeBase)).msg
       case None => |polls| == w.master.respTimeout / timeBase + 1
       case Some(m) => |m.pdu| >= 2
  }

  /** A try of `Retries` is what three calls and the polls of its line make of the device. */
  lemma TryOnDevice<A(!new), B(!new)>(n: Node<A>, i: nat, h: nat, w: R.Wire<B>, cmd: Callbacks<B>,
      polls: seq<seq<byte>>, rest: seq<byte>) returns (calls: seq<NodeCall>)
    requires OnDevice(n, i, h, w) && R.TriesLeft(w.master) && Fits(RequestOf(w.master)) && |rest| == BUFFER_SIZE
    requires n.timeBase > 0 && Enough(w, polls, n.timeBase)
    ensures NodeInv(n) && CallsOk(calls)
    ensures var n' := NodeRun(n, calls);
            && OnDevice(n', i, h, R.Try(w, cmd, polls, Reload(n.timeBase)))
            && n'.gw.servers == n.gw.servers && n'.timeBase == n.timeBase
            && h < |n.masters| && n'.masters == n.masters[h := R.Try(w, cmd, polls, Reload(n.timeBase)).master]
    ensures AboutToAsk(n, i, h) && SentBy(n, calls) == RequestSent(n, i, h)
  {
    hide NodeInv, NodeRun, SentBy, AboutToAsk, OnDevice, LinkAfterRequest, TryOver, RequestSent, Silent, Polls, Route,
         R.Try, Fits, F.Frame, Listening.Listen, Overwritten;
    DeviceAsks(n, i, h, w);
    assert n.masters[h] == w.master by { DeviceMaster(n, i, h, w); }
    assert EnoughPolls(n, i, h, polls);
    var left := TryOnLink(n, i, h, polls, rest);
    calls := TryCalls(n, i, h, polls, rest);
    TryIsOver(n, i, h, w, cmd, polls, left);
  }

  lemma DeviceMaster<A(!new), B>(n: Node<A>, i: nat, h: nat, w: R.Wire<B>)
    requires OnDevice(n, i, h, w)
    ensures R.Fine(w) && NodeInv(n) && h < |n.masters| && n.masters[h] == w.master
    ensures Route(n.gw.servers, w.master.slaveId) >= 0
  {
    hide NodeInv;
  }

  lemma TryIsOver<A(!new), B(!new)>(n: Node<A>, i: nat, h: nat, w: R.Wire<B>, cmd: Callbacks<B>, polls: seq<seq<byte>>,
      left: nat)
    requires OnDevice(n, i, h, w) && R.TriesLeft(w.master) && AboutToAsk(n, i, h) && n.timeBase > 0
    requires LinkAfterRequest(n, i, h) == Overwritten(w.link, R.NextTry(w.master))
    requires var msg := HeardInTry(n, i, h, polls).msg; msg.Some? ==> 2 <= |msg.value.pdu| <= 60
    requires var heard := HeardInTry(n, i, h, polls); NodeInv(TryOver(n, i, h, heard.link, heard.msg, left))
    ensures var heard := HeardInTry(n, i, h, polls);
            var n' := TryOver(n, i, h, heard.link, heard.msg, left);
            && OnDevice(n', i, h, R.Try(w, cmd, polls, Reload(n.timeBase)))
            && n'.gw.servers == n.gw.servers && n'.timeBase == n.timeBase
            && h < |n.masters| && n'.masters == n.masters[h := R.Try(w, cmd, polls, Reload(n.timeBase)).master]
  {
    hide Own, DistinctSlaves, Exclusive, Contract, Route, Send, M.Request, M.Tried, M.Response, Fits, Listening.Listen,
         Serve, F.Frame, F.Receive, Overlay, R.Answered, Overwritten;
    var heard := HeardInTry(n, i, h, polls);
    R.AskedAgain(w.master);
    AsksAgain(n, i, h, heard.link, heard.msg, left);
    S.OverlayStarts(w.buffer, M.Request(w.master));
    KeepsSlaveId(M.Tried(w.master), Overlay(w.buffer, M.Request(w.master)), heard.msg);
  }

  /** Every try has enough polls for its device. */
  predicate EnoughForAll<A>(w: R.Wire<A>, cmd: Callbacks<A>, script: seq<seq<seq<byte>>>, timeBase: nat)
    requires R.Fine(w) && timeBase > 0
    decreases |script|
  {
    w.master.cmd == 0 || w.master.retryCount == 0
    || (&& script != [] && Enough(w, script[0], timeBase)
        && EnoughForAll(R.Try(w, cmd, script[0], Reload(timeBase)), cmd, script[1..], timeBase))
  }

  /** The frames of `n` tries with the same request. */
  function Requests(sent: seq<Sent>, n: nat): seq<Sent> {
    if n == 0 then [] else sent + Requests(sent, n - 1)
  }

  /** The request of `m` as the server for its slave id writes it. */
  ghost function Written(servers: seq<Server>, m: M.Master): seq<Sent>
    requires M.Sound(m) && Route(servers, m.slaveId) >= 0
  {
    [Sent(servers[Route(servers, m.slaveId)].handler, F.Frame(RequestOf(m)))]
  }

  /** What is asked stays the same as long as the command is pending. */
  lemma AsksTheSame<A>(w: R.Wire<A>, cmd: Callbacks<A>, polls: seq<seq<byte>>, reload: nat)
    requires R.Fine(w) && R.TriesLeft(w.master)
    ensures var m := R.Try(w, cmd, polls, reload).master; m.cmd != 0 ==> RequestOf(m) == RequestOf(w.master)
    ensures R.Try(w, cmd, polls, reload).master.slaveId == w.master.slaveId
  {
    hide R.Answered, Listening.Listen, E.Held, M.Verdict, M.Received, Overwritten;
    R.AskedAgain(w.master);
  }

  /** The call that ends a command without tries left. */
  lemma LastCall<A(!new), B>(n: Node<A>, i: nat, h: nat, w: R.Wire<B>, rest: seq<byte>)
    requires OnDevice(n, i, h, w) && |rest| == BUFFER_SIZE && w.master.cmd != 0 && w.master.retryCount == 0
    ensures NodeInv(n) && CallsOk(Silent(i, 1, rest))
    ensures NodeRun(n, Silent(i, 1, rest)).masters == n.masters[h := M.Tried(w.master)]
    ensures SentBy(n, Silent(i, 1, rest)) == []
  {
    hide Own, DistinctSlaves, Exclusive, Contract, M.Sound, M.Request, Route, NodeRun, SentBy;
    var call := ClientCall(i, Input([], rest));
    assert Silent(i, 1, rest) == [call];
    OneCall(n, call);
  }

  lemma NoCalls<A(!new)>(n: Node<A>)
    requires NodeInv(n)
    ensures NodeRun(n, []) == n && SentBy(n, []) == []
  {
  }

  lemma NoRequests(sent: seq<Sent>)
    ensures Requests(sent, 0) == []
  {
  }

  lemma OneMoreRequest(sent: seq<Sent>, n: int)
    requires n > 0
    ensures Requests(sent, n) == sent + Requests(sent, n - 1)
  {
  }

  lemma WrittenAgain(servers: seq<Server>, m: M.Master, m': M.Master)
    requires M.Sound(m) && M.Sound(m') && m'.slaveId == m.slaveId && RequestOf(m') == RequestOf(m)
    requires Route(servers, m.slaveId) >= 0
    ensures Written(servers, m') == Written(servers, m)
  {
  }

  lemma WrittenIsSent<A(!new), B>(n: Node<A>, i: nat, h: nat, w: R.Wire<B>)
    requires AboutToAsk(n, i, h) && OnDevice(n, i, h, w)
    ensures RequestSent(n, i, h) == Written(n.gw.servers, w.master)
  {
    hide Inv, Sane, Own, DistinctSlaves, F.Frame, M.Request, Route;
  }

  /** MAIN: a whole command on the device of its master is the command of `Retries`, for every slave,
      everything the link holds and everything the line brings: the calls leave the master as it is after
      all tries, and write the frame of the request once for each try and nothing else. */
  lemma {:induction false} CommandOnDevice<A(!new), B(!new)>(n: Node<A>, i: nat, h: nat, w: R.Wire<B>,
      cmd: Callbacks<B>, script: seq<seq<seq<byte>>>, rest: seq<byte>) returns (calls: seq<NodeCall>)
    requires OnDevice(n, i, h, w) && |rest| == BUFFER_SIZE && (w.master.cmd != 0 ==> Fits(RequestOf(w.master)))
    requires n.timeBase > 0 && EnoughForAll(w, cmd, script, n.timeBase)
    ensures NodeInv(n) && CallsOk(calls) && h < |n.masters| && Route(n.gw.servers, w.master.slaveId) >= 0
    ensures var x := R.Tries(w, cmd, script, n.timeBase);
            && NodeRun(n, calls).masters == n.masters[h := x.master] && x.master.retryCount <= w.master.retryCount
            && SentBy(n, calls) ==
               Requests(Written(n.gw.servers, w.master), w.master.retryCount - x.master.retryCount)
    decreases |script|
  {
    hide NodeRun, SentBy, Route, R.Try, Fits, RequestOf, Requests, Written, Inv, Sane, Own, Enough, NodeStep;
    calls := [];
    DeviceMaster(n, i, h, w);
    NoCalls(n);
    NoRequests(Written(n.gw.servers, w.master));
    if w.master.cmd != 0 {
      if w.master.retryCount == 0 {
        LastCall(n, i, h, w, rest);
        calls := Silent(i, 1, rest);
      } else {
        var first := TryOnDevice(n, i, h, w, cmd, script[0], rest);
        var w' := R.Try(w, cmd, script[0], Reload(n.timeBase));
        var n' := NodeRun(n, first);
        AsksTheSame(w, cmd, script[0], Reload(n.timeBase));
        var later := CommandOnDevice(n', i, h, w', cmd, script[1..], rest);
        RunAppend(n, first, later);
        WrittenIsSent(n, i, h, w);
        if w'.master.cmd != 0 {
          WrittenAgain(n.gw.servers, w.master, w'.master);
        } else {
          NoRequests(Written(n.gw.servers, w'.master));
        }
        OneMoreRequest(Written(n.gw.servers, w.master),
                       w.master.retryCount - R.Tries(w, cmd, script, n.timeBase).master.retryCount);
        calls := first + later;
      }
    }
  }

  /** In each try of a long read nothing is heard, or its request. */
  lemma {:induction false} LongReadPollsEnough(w: R.Wire<Bank>, script: seq<seq<seq<byte>>>, timeBase: nat)
    requires R.Fine(w) && w.master.cmd != 0 && R.LongRead(w.master) && R.Inside(w.master, w.app) && R.Between(w)
    requires timeBase > 0 && R.Ticks(w.master.respTimeout, timeBase) < R.Ticks(1000, timeBase)
    requires R.LineHandsOver(w, BANK, script, timeBase)
    ensures EnoughForAll(w, BANK, script, timeBase)
    decreases w.master.retryCount
  {
    hide R.Try, Serve, M.Request, R.Between, R.CommandCalls, Overwritten, Listening.Listen,
         Listening.Readable, R.Answered;
    var m := w.master;
    if m.retryCount > 0 {
      BankMeetsContract();
      R.BankAnswers(m, w.app);
      R.LongTry(w, BANK, script[0], timeBase);
      RequestHead(m);
      LongReadPollsEnough(R.Try(w, BANK, script[0], Reload(timeBase)), script[1..], timeBase);
    }
  }

  /** MAIN: a read or read-write of 30 to 125 registers on the device of its master, over every line that
      brings each reply of the slave within its try: the device sends the request on every try and the
      command ends with `EndCode`. */
  lemma LongReadOnDevice<A(!new)>(n: Node<A>, i: nat, h: nat, w: R.Wire<Bank>, script: seq<seq<seq<byte>>>,
      rest: seq<byte>) returns (calls: seq<NodeCall>)
    requires OnDevice(n, i, h, w) && |rest| == BUFFER_SIZE && n.timeBase > 0
    requires w.master.cmd != 0 && R.LongRead(w.master) && R.Inside(w.master, w.app) && R.Between(w)
    requires R.Ticks(w.master.respTimeout, n.timeBase) < R.Ticks(1000, n.timeBase)
    requires R.LineHandsOver(w, BANK, script, n.timeBase)
    ensures NodeInv(n) && CallsOk(calls) && h < |n.masters| && Route(n.gw.servers, w.master.slaveId) >= 0
    ensures NodeRun(n, calls).masters == n.masters[h := R.GivenUp(w.master, R.EndCode(w.master, w.link))]
    ensures SentBy(n, calls) == Requests(Written(n.gw.servers, w.master), w.master.retryCount)
  {
    hide OnDevice, NodeInv, NodeRun, SentBy, Route, Requests, Written, R.Try, R.Tries, R.LineHandsOver, R.Between,
         M.Request, HearsItself, R.EndCode, EnoughForAll;
    DeviceMaster(n, i, h, w);
    LongReadPollsEnough(w, script, n.timeBase);
    R.LongReadEnds(w, script, n.timeBase);
    LongRequestFits(w.master);
    calls := CommandOnDevice(n, i, h, w, BANK, script, rest);
  }

  lemma LongRequestFits(m: M.Master)
    requires R.LongRead(m)
    ensures Fits(RequestOf(m))
  {
    hide M.Request;
    RequestHead(m);
  }

  /** A device just set up, its command pending, is one that `Retries` starts from. */
  lemma FreshOnDevice(m: M.Master, regs: Bank, timeBase: nat) returns (w: R.Wire<Bank>)
    requires D.Pending(m) && timeBase > 0
    ensures w == R.Wire(m, w.buffer, regs, [], Link([], 0), []) && OnDevice(D.MasterDevice(m, timeBase), 0, 0, w)
  {
    hide Inv, Own, DistinctSlaves, M.Sound, D.MasterGateway;
    D.MasterDeviceAsks(m, timeBase);
    w := R.Wire(m, D.MasterDevice(m, timeBase).gw.clients[0].buffer, regs, [], Link([], 0), []);
  }

  /** MAIN: so there is a run of a device just set up in which a slave answers all three tries rightly and the
      command ends with the code for a wrong response: 70 registers read and one written. */
  lemma WrongCodeOnDevice(regs: Bank, rest: seq<byte>) returns (calls: seq<NodeCall>)
    requires |regs| >= 70 && |rest| == BUFFER_SIZE
    ensures var n := D.MasterDevice(R.SeventyRead(), 5);
            && NodeInv(n) && CallsOk(calls) && Route(n.gw.servers, 1) >= 0
            && NodeRun(n, calls).masters == [R.GivenUp(R.SeventyRead(), E_PDU_RECEIVED_WRONG)]
            && SentBy(n, calls) == Requests(Written(n.gw.servers, R.SeventyRead()), 3)
  {
    hide OnDevice, NodeInv, NodeRun, SentBy, Route, Requests, Written, R.Try, R.LineHandsOver, M.Request, R.GivenUp,
         D.MasterGateway;
    var w := FreshOnDevice(R.SeventyRead(), regs, 5);
    DeviceMaster(D.MasterDevice(R.SeventyRead(), 5), 0, 0, w);
    var script := R.LineExists(w, 5);
    calls := LongReadOnDevice(D.MasterDevice(R.SeventyRead(), 5), 0, 0, w, script, rest);
  }
}
