/**
 Properties of whole runs: any script of poll results and environment answers.
 */
module ServerRuns {
  import opened Kernels
  import opened MessageHandler
  import opened TcpServers
  import opened ConnectionLog
  import opened ScanSteps

  // The listener's slot

  /** The events on which the loop closes a slot: exactly POLLHUP or exactly POLLERR, as poll.h numbers them. */
  predicate Lost(revents: int) { revents == 0x10 || revents == 0x08 }

  /** Exactly POLLIN. */
  predicate IsReadable(revents: int) { revents == 0x01 }

  /** The listener reported nothing that makes the loop close it. */
  predicate HealthyRound(round: Round) { round.Ready? ==> !Lost(round.reported[0]) }

  predicate Healthy(script: seq<Round>) { forall i :: 0 <= i < |script| ==> HealthyRound(script[i]) }

  /** Rounds after which the loop goes on. */
  predicate Loops(script: seq<Round>) { forall i :: 0 <= i < |script| ==> script[i].TimedOut? || script[i].Ready? }

  /** What a visit to the listener's slot logs: the next connection, if one is waiting and a slot is free. */
  function ListenerBlock(s: Server, a: SlotAnswer): seq<Action> {
    if s.slots[0].fd != -1 && s.slots[0].revents == POLLIN
       && FirstFree(s.slots, 1) < NUMBER_OF_SOCKETS && a.pending.Accepts?
    then [Accepted(s.kernel.next)] else []
  }

  lemma AcceptKeepsInv(s: Server, pending: Pending)
    requires Inv(s) && s.slots[0].fd == s.listener
    ensures var t := ConnectionAccepted(s, pending);
            var accepts := FirstFree(s.slots, 1) < NUMBER_OF_SOCKETS && pending.Accepts?;
            && Inv(t) && t.slots[0] == s.slots[0] && t.listener == s.listener
            && t.kernel.next == s.kernel.next + (if accepts then 1 else 0)
            && t.kernel.log == s.kernel.log + if accepts then [Accepted(s.kernel.next)] else []
  {
    hide ConnectionAccepted, FreshFd, FirstFree;
    var j := FirstFree(s.slots, 1);
    var t := ConnectionAccepted(s, pending);
    assert s.listener in s.kernel.open;
    AcceptedState(s, pending);
    if j < NUMBER_OF_SOCKETS && pending.Accepts? {
      AdditionKeepsInv(s, t, j, FreshFd(s.kernel.open, pending.wish));
    } else {
      assert s.kernel.log + [] == s.kernel.log;
    }
  }

  lemma AcceptedState(s: Server, pending: Pending)
    requires s.listener in s.kernel.open
    ensures var j, t := FirstFree(s.slots, 1), ConnectionAccepted(s, pending);
            if j < NUMBER_OF_SOCKETS && pending.Accepts? then
              var fd := FreshFd(s.kernel.open, pending.wish);
              && t.listener == s.listener && t.slots == s.slots[j := s.slots[j].(fd := fd)]
              && t.kernel == KernelState(s.kernel.open + {fd}, s.kernel.conn[fd := s.kernel.next], s.kernel.next + 1,
                                         s.kernel.log + [Accepted(s.kernel.next)])
            else t == s
  {
  }

  lemma AdditionKeepsInv(s: Server, t: Server, j: nat, fd: int)
    requires Inv(s) && 1 <= j < NUMBER_OF_SOCKETS && s.slots[j].fd == -1
    requires fd >= 0 && fd !in s.kernel.open && fd != s.listener
    requires t.listener == s.listener && t.slots == s.slots[j := s.slots[j].(fd := fd)]
    requires t.kernel == KernelState(s.kernel.open + {fd}, s.kernel.conn[fd := s.kernel.next], s.kernel.next + 1,
                                     s.kernel.log + [Accepted(s.kernel.next)])
    ensures Inv(t)
  {
    var block := [Accepted(s.kernel.next)];
    TableAfterAddition(s, t, j, fd);
    forall d: int ensures Advanced(PhaseNow(s.kernel, d), block, d) == PhaseNow(t.kernel, d) {
      LiveAfterAddition(s.kernel, t.kernel, fd, d);
      assert block[1..] == [];
    }
    assert block[..0] == [];
    LogAfterBlock(s.kernel, t.kernel, block);
  }

  lemma LiveAfterAddition(k: KernelState, l: KernelState, fd: int, d: int)
    requires fd !in k.conn && l.conn == k.conn[fd := k.next]
    ensures LiveConnection(l, d) <==> LiveConnection(k, d) || d == k.next
  {
    if LiveConnection(k, d) {
      var f :| f in k.conn && k.conn[f] == d;
      assert f in l.conn && l.conn[f] == d;
    }
    if d == k.next {
      assert fd in l.conn && l.conn[fd] == d;
    }
  }

  /** The listener's slot is served first: it accepts, or is lost for good, and logs just that. */
  lemma ListenerVisited(s: Server, a: SlotAnswer)
    requires Inv(s)
    ensures var t := SlotVisited(s, 0, a);
            && Inv(t) && t.listener == s.listener
            && t.slots[0].events == s.slots[0].events
            && t.kernel.next == s.kernel.next + |ListenerBlock(s, a)|
            && t.kernel.log == s.kernel.log + ListenerBlock(s, a)
            && t.slots[0].fd == if Lost(s.slots[0].revents) then -1 else s.slots[0].fd
  {
    hide MessageServed, ConnectionAccepted;
    var t := SlotVisited(s, 0, a);
    assert s.kernel.log + [] == s.kernel.log;
    if s.slots[0].fd != -1 {
      if s.slots[0].revents == POLLIN {
        AcceptKeepsInv(s, a.pending);
      } else if Lost(s.slots[0].revents) {
        assert s.kernel.conn - {s.listener} == s.kernel.conn;
        TableAfterRemoval(s, t, 0);
        assert LogInv(t.kernel) by {
          forall c: int ensures PhaseOf(t.kernel.log, c) == PhaseNow(t.kernel, c) {
            assert PhaseNow(t.kernel, c) == PhaseNow(s.kernel, c);
          }
        }
      }
    }
  }

  // A whole scan, in terms of the table poll reported on

  /** What the slots from i on have to log, read off the polled table. */
  function ClientBlocks(p: Server, i: nat, answers: Answers): seq<Action>
    requires 1 <= i <= NUMBER_OF_SOCKETS
    decreases NUMBER_OF_SOCKETS - i
  {
    if i == NUMBER_OF_SOCKETS then []
    else ReportedBlock(p, i, answers[i]) + ClientBlocks(p, i + 1, answers)
  }

  function ReportedBlock(p: Server, i: nat, a: SlotAnswer): seq<Action>
    requires i < NUMBER_OF_SOCKETS
  {
    if p.slots[i].fd in p.kernel.conn then VisitBlock(p.kernel.conn[p.slots[i].fd], p.slots[i].revents, a) else []
  }

  /** A slot still holds what poll reported on, or was empty then and has nothing reported. */
  ghost predicate Undisturbed(p: Server, s: Server, i: nat)
    requires i < NUMBER_OF_SOCKETS
  {
    var fd := p.slots[i].fd;
    && s.slots[i].revents == p.slots[i].revents
    && (fd != -1 ==>
          && s.slots[i].fd == fd
          && fd in p.kernel.conn && fd in s.kernel.conn
          && s.kernel.conn[fd] == p.kernel.conn[fd])
    && (fd == -1 ==> p.slots[i].revents == 0 && fd !in p.kernel.conn)
  }

  ghost predicate UndisturbedFrom(p: Server, s: Server, i: nat) {
    forall j :: i <= j < NUMBER_OF_SOCKETS ==> Undisturbed(p, s, j)
  }

  lemma ScanStep(p: Server, s: Server, i: nat, answers: Answers) returns (t: Server)
    requires 1 <= i < NUMBER_OF_SOCKETS
    requires Inv(s) && UndisturbedFrom(p, s, i)
    ensures ScannedFrom(s, i, answers) == ScannedFrom(t, i + 1, answers)
    ensures Inv(t) && t.listener == s.listener && t.slots[0] == s.slots[0] && t.kernel.next == s.kernel.next
    ensures t.kernel.log == s.kernel.log + ReportedBlock(p, i, answers[i])
    ensures UndisturbedFrom(p, t, i + 1)
  {
    assert Undisturbed(p, s, i);
    t := SlotVisited(s, i, answers[i]);
    if s.slots[i].fd != -1 {
      ClientVisited(s, i, answers[i]);
      ClientVisitKeepsInv(s, i, answers[i]);
    } else {
      assert s.kernel.log + [] == s.kernel.log;
    }
    forall j | i + 1 <= j < NUMBER_OF_SOCKETS ensures Undisturbed(p, t, j) {
      assert Undisturbed(p, s, j);
    }
  }

  /** The rest of a scan logs what was reported for the rest of the slots, and keeps the invariant. */
  lemma {:induction false} ScanRest(p: Server, s: Server, i: nat, answers: Answers) returns (t: Server)
    requires 1 <= i <= NUMBER_OF_SOCKETS
    requires Inv(s) && UndisturbedFrom(p, s, i)
    ensures t == ScannedFrom(s, i, answers)
    ensures Inv(t) && t.listener == s.listener && t.slots[0] == s.slots[0] && t.kernel.next == s.kernel.next
    ensures t.kernel.log == s.kernel.log + ClientBlocks(p, i, answers)
    decreases NUMBER_OF_SOCKETS - i
  {
    hide SlotVisited, ReportedBlock, Inv, UndisturbedFrom;
    if i == NUMBER_OF_SOCKETS {
      assert s.kernel.log + [] == s.kernel.log;
      t := s;
    } else {
      var u := ScanStep(p, s, i, answers);
      t := ScanRest(p, u, i + 1, answers);
    }
  }

  lemma PolledKeepsInv(s: Server, reported: Reports)
    requires Inv(s)
    ensures Inv(Polled(Armed(s), reported))
    ensures Polled(Armed(s), reported).kernel == s.kernel
    ensures Polled(Armed(s), reported).slots[0].fd == s.slots[0].fd && Polled(Armed(s), reported).listener == s.listener
    ensures Polled(Armed(s), reported).slots[0].events == s.slots[0].events
    ensures Polled(Armed(s), reported).slots[0].revents == Noticed(s.slots[0], reported[0])
  {
    TableUnmoved(s, Polled(Armed(s), reported));
  }

  /** After the listener's slot, every client slot is as poll reported on it. */
  lemma ListenerDisturbsNothing(p: Server, a: SlotAnswer)
    requires Inv(p)
    requires ReportedProperly(p)
    ensures UndisturbedFrom(p, SlotVisited(p, 0, a), 1)
  {
    hide MessageServed, LogInv, ConnectionAccepted, FreshFd, UndisturbedFrom, SlotsOpen, SlotsDistinct,
        ConnectionsDistinct, FirstFree;
    var t := SlotVisited(p, 0, a);
    UnmovedUndisturbed(p);
    if p.slots[0].fd != -1 {
      if p.slots[0].revents == POLLIN {
        ListenerOpen(p);
        AcceptedState(p, a.pending);
        var j := FirstFree(p.slots, 1);
        if j < NUMBER_OF_SOCKETS && a.pending.Accepts? {
          AdditionUndisturbed(p, t, j, FreshFd(p.kernel.open, a.pending.wish));
        }
      } else if Lost(p.slots[0].revents) {
        LossUndisturbed(p, t);
      }
    }
  }

  lemma ListenerOpen(p: Server)
    requires TableInv(p) && p.slots[0].fd != -1
    ensures p.listener in p.kernel.open
  {
  }

  /** Empty slots have nothing reported; the others hold a connection. */
  ghost predicate ReportedProperly(p: Server) {
    forall i :: 0 <= i < NUMBER_OF_SOCKETS && p.slots[i].fd < 0 ==> p.slots[i].revents == 0
  }

  lemma UnmovedUndisturbed(p: Server)
    requires TableInv(p) && ReportedProperly(p)
    ensures UndisturbedFrom(p, p, 1)
  {
    assert -1 !in p.kernel.conn;
  }

  lemma LossUndisturbed(p: Server, t: Server)
    requires TableInv(p) && UndisturbedFrom(p, p, 1)
    requires t.slots == p.slots[0 := t.slots[0]] && t.kernel.conn == p.kernel.conn - {p.listener}
    ensures UndisturbedFrom(p, t, 1)
  {
    forall i | 1 <= i < NUMBER_OF_SOCKETS ensures Undisturbed(p, t, i) {
      assert Undisturbed(p, p, i);
    }
  }

  lemma AdditionUndisturbed(p: Server, t: Server, j: nat, fd: int)
    requires TableInv(p) && UndisturbedFrom(p, p, 1)
    requires 1 <= j < NUMBER_OF_SOCKETS && p.slots[j].fd == -1 && fd !in p.kernel.open
    requires t.slots == p.slots[j := p.slots[j].(fd := fd)] && t.kernel.conn == p.kernel.conn[fd := p.kernel.next]
    ensures UndisturbedFrom(p, t, 1)
  {
    forall i | 1 <= i < NUMBER_OF_SOCKETS ensures Undisturbed(p, t, i) {
      assert Undisturbed(p, p, i);
    }
  }

  /**
   No stale events. A scan logs exactly what was reported, slot by slot in order, each
   block about the connection that slot held when poll returned. It is a function of
   that table and the environment's answers.
   */
  lemma ScanIsAsReported(s: Server, reported: Reports, answers: Answers)
    requires Inv(s)
    ensures var p, t := Polled(Armed(s), reported), AfterRound(s, Ready(reported, answers));
            && Inv(t) && t.listener == s.listener
            && t.slots[0].events == s.slots[0].events
            && t.kernel.next == s.kernel.next + |ListenerBlock(p, answers[0])|
            && t.kernel.log == s.kernel.log + ListenerBlock(p, answers[0]) + ClientBlocks(p, 1, answers)
            && t.slots[0].fd == if Lost(reported[0]) then -1 else s.slots[0].fd
  {
    hide SlotVisited, ClientBlocks, ListenerBlock, Inv, UndisturbedFrom;
    var p := Polled(Armed(s), reported);
    PolledKeepsInv(s, reported);
    InvListener(s);
    ListenerVisited(p, answers[0]);
    ListenerDisturbsNothing(p, answers[0]);
    var _ := ScanRest(p, SlotVisited(p, 0, answers[0]), 1, answers);
  }

  predicate IsEvent(revents: int) { IsReadable(revents) || Lost(revents) }

  /** Every read, send and close of a scan is about a connection poll reported an event for. */
  lemma {:induction false} ActionsWereReported(p: Server, i: nat, answers: Answers, n: nat)
    requires 1 <= i <= NUMBER_OF_SOCKETS && n < |ClientBlocks(p, i, answers)|
    ensures var a := ClientBlocks(p, i, answers)[n];
            && !a.Accepted?
            && (a.Received? || a.Sent? || a.Closed? ==>
                 exists j :: i <= j < NUMBER_OF_SOCKETS && p.slots[j].fd in p.kernel.conn
                             && a.conn == p.kernel.conn[p.slots[j].fd] && IsEvent(p.slots[j].revents))
    decreases NUMBER_OF_SOCKETS - i
  {
    hide VisitBlock;
    var block := ReportedBlock(p, i, answers[i]);
    if n < |block| {
      BlockIsAbout(p.kernel.conn[p.slots[i].fd], p.slots[i].revents, answers[i], n);
    } else {
      ActionsWereReported(p, i + 1, answers, n - |block|);
    }
  }

  lemma BlockIsAbout(c: int, revents: int, a: SlotAnswer, n: nat)
    requires n < |VisitBlock(c, revents, a)|
    ensures IsEvent(revents)
    ensures var b := VisitBlock(c, revents, a)[n];
            !b.Accepted? && (b.Received? || b.Sent? || b.Closed? ==> b.conn == c)
  {
    hide Handle;
  }

  /** A connection accepted in a scan is neither read, answered nor closed in that scan. */
  lemma NewConnectionUntouched(s: Server, reported: Reports, answers: Answers, n: nat)
    requires Inv(s) && n < |ClientBlocks(Polled(Armed(s), reported), 1, answers)|
    ensures var a := ClientBlocks(Polled(Armed(s), reported), 1, answers)[n];
            a.Received? || a.Sent? || a.Closed? ==>
                Accepted(a.conn) !in ListenerBlock(Polled(Armed(s), reported), answers[0])
  {
    hide Polled, Armed, LogInv, ClientBlocks;
    PolledKeepsInv(s, reported);
    EarlierConnections(Polled(Armed(s), reported), answers, n);
  }

  lemma EarlierConnections(p: Server, answers: Answers, n: nat)
    requires ConnectionsDistinct(p.kernel) && n < |ClientBlocks(p, 1, answers)|
    ensures var a := ClientBlocks(p, 1, answers)[n];
            a.Received? || a.Sent? || a.Closed? ==> a.conn < p.kernel.next
  {
    hide ClientBlocks;
    ActionsWereReported(p, 1, answers, n);
  }

  // Timeouts and signals

  /** The descriptors of the client slots from i on. */
  function ClientFds(slots: Table, i: nat): (fds: set<int>)
    requires 1 <= i <= NUMBER_OF_SOCKETS
    ensures |fds| <= NUMBER_OF_SOCKETS - i
    ensures FirstFree(slots, i) < NUMBER_OF_SOCKETS ==> |fds| < NUMBER_OF_SOCKETS - i
    ensures forall fd :: fd in fds <==> exists j :: i <= j < NUMBER_OF_SOCKETS && slots[j].fd == fd && fd != -1
    decreases NUMBER_OF_SOCKETS - i
  {
    if i == NUMBER_OF_SOCKETS then {}
    else (if slots[i].fd == -1 then {} else {slots[i].fd}) + ClientFds(slots, i + 1)
  }

  lemma {:induction false} AllTaken(s: Server, i: nat)
    requires 1 <= i <= NUMBER_OF_SOCKETS && SlotsDistinct(s) && FirstFree(s.slots, i) == NUMBER_OF_SOCKETS
    ensures |ClientFds(s.slots, i)| == NUMBER_OF_SOCKETS - i
    decreases NUMBER_OF_SOCKETS - i
  {
    if i < NUMBER_OF_SOCKETS {
      AllTaken(s, i + 1);
      assert s.slots[i].fd !in ClientFds(s.slots, i + 1);
    }
  }

  /** A waiting connection finds a slot exactly when fewer than twenty connections are open. */
  lemma RoomExactly(s: Server)
    requires TableInv(s)
    ensures FirstFree(s.slots, 1) < NUMBER_OF_SOCKETS <==> |s.kernel.conn.Keys| < 20
  {
    hide ClientFds, FirstFree;
    OpenIsTable(s);
    if FirstFree(s.slots, 1) == NUMBER_OF_SOCKETS {
      AllTaken(s, 1);
    }
  }

  function ListenerFds(s: Server): set<int> { if s.slots[0].fd == -1 then {} else {s.listener} }

  /** The invariant in terms of sets: what is open is what the table holds. */
  lemma OpenIsTable(s: Server)
    requires TableInv(s)
    ensures s.kernel.open == ListenerFds(s) + ClientFds(s.slots, 1)
    ensures s.kernel.conn.Keys == ClientFds(s.slots, 1) && s.listener !in ClientFds(s.slots, 1)
  {
    hide ClientFds, ConnectionsDistinct, SlotsDistinct, SlotsOpen, SlotsConnected;
    forall fd ensures fd in s.kernel.open <==> fd in ListenerFds(s) + ClientFds(s.slots, 1) {
      OpenFd(s, fd);
    }
    forall fd ensures fd in s.kernel.conn <==> fd in ClientFds(s.slots, 1) {
      OpenFd(s, fd);
    }
    OpenFd(s, s.listener);
  }

  lemma OpenFd(s: Server, fd: int)
    requires SlotsOpen(s) && SlotsConnected(s)
    ensures fd in s.kernel.open <==> fd in ListenerFds(s) || fd in ClientFds(s.slots, 1)
    ensures fd in s.kernel.conn <==> fd in ClientFds(s.slots, 1)
    ensures fd in ClientFds(s.slots, 1) ==> fd != s.listener
  {
    hide ClientFds;
    if fd in s.kernel.open {
      var i :| 0 <= i < NUMBER_OF_SOCKETS && s.slots[i].fd == fd && fd != -1;
    }
  }

  lemma {:induction false} DropRest(s: Server, i: nat) returns (t: Server)
    requires 1 <= i <= NUMBER_OF_SOCKETS && Inv(s)
    requires forall j :: 1 <= j < i ==> s.slots[j].fd == -1
    ensures t == DroppedFrom(s, i)
    ensures Inv(t) && t.listener == s.listener && t.slots[0] == s.slots[0] && t.kernel.next == s.kernel.next
    ensures forall j :: 1 <= j < NUMBER_OF_SOCKETS ==> t.slots[j].fd == -1
    decreases NUMBER_OF_SOCKETS - i
  {
    hide Inv, AfterClose;
    if i == NUMBER_OF_SOCKETS {
      t := s;
    } else if s.slots[i].fd != -1 {
      ClientDropKeepsInv(s, i);
      t := DropRest(SlotClosed(s, i), i + 1);
    } else {
      t := DropRest(s, i + 1);
    }
  }

  lemma NoClients(t: Server)
    requires Inv(t) && forall j :: 1 <= j < NUMBER_OF_SOCKETS ==> t.slots[j].fd == -1
    ensures t.kernel.open == ListenerFds(t) && t.kernel.conn == map[]
    ensures forall c :: 0 <= c < t.kernel.next ==> PhaseOf(t.kernel.log, c) == Gone
  {
    hide LogInv, SlotsOpen, SlotsConnected, SlotsDistinct, ConnectionsDistinct;
    OpenIsTable(t);
    assert ClientFds(t.slots, 1) == {};
    NobodyLive(t.kernel);
  }

  lemma NobodyLive(k: KernelState)
    requires LogInv(k) && k.conn == map[]
    ensures forall c :: 0 <= c < k.next ==> PhaseOf(k.log, c) == Gone
  {
  }

  /** A timeout closes every connection ever accepted and leaves only the listener. */
  lemma TimeoutDropsAll(s: Server)
    requires Inv(s)
    ensures var t := AfterRound(s, TimedOut);
            && Inv(t) && t.listener == s.listener && t.slots[0].fd == s.slots[0].fd && t.kernel.next == s.kernel.next
            && t.slots[0].events == s.slots[0].events
            && t.kernel.open == ListenerFds(s) && t.kernel.conn == map[]
            && forall c :: 0 <= c < t.kernel.next ==> PhaseOf(t.kernel.log, c) == Gone
  {
    hide LogInv, SlotsDistinct, ConnectionsDistinct;
    PolledKeepsInv(s, NoReports());
    var t := DropRest(Polled(Armed(s), NoReports()), 1);
    NoClients(t);
  }

  /** closeSockets does to the kernel what dropping every client and closing the listener does. */
  lemma {:induction false} CloseIsDrop(s: Server, v: Server, i: nat)
    requires 1 <= i <= NUMBER_OF_SOCKETS
    requires s.kernel == v.kernel && s.listener == v.listener
    requires forall j :: i <= j < NUMBER_OF_SOCKETS ==> s.slots[j].fd == v.slots[j].fd
    ensures ClosedFrom(s, i).kernel == AfterClose(DroppedFrom(v, i).kernel, s.listener)
    decreases NUMBER_OF_SOCKETS - i
  {
    hide AfterClose;
    if i < NUMBER_OF_SOCKETS {
      if s.slots[i].fd != -1 {
        CloseIsDrop(s.(kernel := AfterClose(s.kernel, s.slots[i].fd)), SlotClosed(v, i), i + 1);
      } else {
        CloseIsDrop(s, v, i + 1);
      }
    }
  }

  /**
   A signal leaves nothing open and every connection closed. It closes only what is open
   exactly if the listener had not been lost; otherwise the listener is closed once more.
   */
  lemma SignalClosesAll(s: Server)
    requires Inv(s)
    ensures var k := AfterRound(s, Signal).kernel;
            && k.open == {} && k.next == s.kernel.next
            && (NoBadDescriptor(k.log) <==> s.slots[0].fd == s.listener)
            && DeviceEntries(k.log) == ExpectedEntries(k.log)
            && forall c: int :: PhaseOf(k.log, c) == if 0 <= c < k.next then Gone else Unborn
  {
    hide Inv, AfterClose, DroppedFrom, ClosedFrom;
    CloseIsDrop(s, s, 1);
    var t := DropRest(s, 1);
    LastClose(t);
    assert ListenerFds(s) == ListenerFds(t);
    InvListener(s);
  }

  lemma InvListener(s: Server)
    requires Inv(s)
    ensures s.listener >= 0 && (s.slots[0].fd == -1 || s.slots[0].fd == s.listener)
  {
  }

  lemma LastClose(t: Server)
    requires Inv(t) && forall j :: 1 <= j < NUMBER_OF_SOCKETS ==> t.slots[j].fd == -1
    ensures var k := AfterClose(t.kernel, t.listener);
            && k.open == {} && k.next == t.kernel.next
            && (NoBadDescriptor(k.log) <==> t.slots[0].fd == t.listener)
            && DeviceEntries(k.log) == ExpectedEntries(k.log)
            && forall c: int :: PhaseOf(k.log, c) == if 0 <= c < k.next then Gone else Unborn
  {
    NoClients(t);
    forall c: int ensures PhaseOf(t.kernel.log, c) == if 0 <= c < t.kernel.next then Gone else Unborn {}
    if t.slots[0].fd == -1 {
      ClosedTwice(t.kernel.log, t.listener);
    }
  }

  lemma ClosedTwice(log: seq<Action>, fd: int)
    ensures var more := log + [BadDescriptor(fd)];
            && !NoBadDescriptor(more)
            && DeviceEntries(more) == DeviceEntries(log) && ExpectedEntries(more) == ExpectedEntries(log)
            && forall c: int :: PhaseOf(more, c) == PhaseOf(log, c)
  {
    var more := log + [BadDescriptor(fd)];
    assert more[..|log|] == log && more[|log|].BadDescriptor?;
    assert DeviceEntries(log) + [] == DeviceEntries(log) && ExpectedEntries(log) + [] == ExpectedEntries(log);
  }

  // Whole runs

  /** The state between rounds, for any number of rounds. */
  lemma {:induction false} RunKeepsInv(s: Server, script: seq<Round>)
    requires Inv(s) && Loops(script)
    ensures var t := AfterRun(s, script);
            && Inv(t) && t.listener == s.listener && t.slots[0].events == s.slots[0].events
            && t.slots[0].fd == (if Healthy(script) then s.slots[0].fd else -1)
            && (s.slots[0].fd == -1 ==> t.kernel.next == s.kernel.next)
    decreases |script|
  {
    hide Inv, AfterRound;
    if script != [] {
      var t := AfterRound(s, script[0]);
      match script[0] {
        case TimedOut => TimeoutDropsAll(s);
        case Ready(reported, answers) => ScanIsAsReported(s, reported, answers);
      }
      HealthyFirst(script);
      RunKeepsInv(t, script[1..]);
    }
  }

  lemma HealthyFirst(script: seq<Round>)
    requires script != []
    ensures Healthy(script) <==> HealthyRound(script[0]) && Healthy(script[1..])
    ensures Loops(script) ==> Loops(script[1..])
  {
    if HealthyRound(script[0]) && Healthy(script[1..]) {
      forall i | 0 <= i < |script| ensures HealthyRound(script[i]) {
        assert i > 0 ==> script[i] == script[1..][i - 1];
      }
    }
  }
}
