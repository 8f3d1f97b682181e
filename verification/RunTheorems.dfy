/**
 The main results: what holds of every run of the server, from setup on, for any script
 of poll results, signals and answers of the environment.
 */
module RunTheorems {
  import opened Bits
  import opened Utils
  import opened RequestGrammar
  import opened Kernels
  import opened MessageHandler
  import opened HandlerProperties
  import opened TcpServers
  import opened ConnectionLog
  import opened ScanSteps
  import opened ServerRuns
  import opened PartialRounds

  const FIRST_KERNEL := KernelState({}, map[], 0, [])
  const FIRST_SLOTS: Table := seq(NUMBER_OF_SOCKETS, _ => PollFd(0, 0, 0))

  /** A new server on a new kernel, as the constructors leave them. */
  const FIRST_SERVER := Server(FIRST_SLOTS, Zeros(MAX_MESSAGE_SIZE_IN_BYTES), -1, FIRST_KERNEL)

  /** setup establishes the invariant, with the listener in slot 0. */
  lemma SetupStarts(s: Server, wish: int)
    requires s.kernel == FIRST_KERNEL
    ensures Inv(AfterSetup(s, wish))
    ensures AfterSetup(s, wish).slots[0] == PollFd(AfterSetup(s, wish).listener, POLLIN, s.slots[0].revents)
  {
    var t := AfterSetup(s, wish);
    assert t.slots[0].fd == t.listener;
  }

  lemma {:induction false} RunConcat(s: Server, first: seq<Round>, last: seq<Round>)
    requires Loops(first)
    ensures AfterRun(s, first + last) == AfterRun(AfterRun(s, first), last)
    decreases |first|
  {
    hide AfterRound;
    if first == [] {
      assert first + last == last;
    } else {
      assert (first + last)[1..] == first[1..] + last;
      assert forall i :: 0 <= i < |first[1..]| ==> first[1..][i] == first[i + 1];
      RunConcat(AfterRound(s, first[0]), first[1..], last);
    }
  }

  lemma OneRound(s: Server, round: Round)
    ensures AfterRun(s, [round]) == AfterRound(s, round)
  {
    hide AfterRound;
    assert [round][1..] == [];
  }

  // Descriptors

  /**
   The open descriptors are exactly the table's: distinct clients, at most twenty, and the
   listener if it is held. No call ever used a descriptor that was not open.
   */
  ghost predicate Conserved(t: Server, listener: int, held: bool) {
    var clients := ClientFds(t.slots, 1);
    && t.kernel.open == clients + (if held then {listener} else {})
    && listener !in clients && |clients| <= 20
    && t.kernel.conn.Keys == clients
    && SlotsDistinct(t) && NoBadDescriptor(t.kernel.log)
  }

  lemma InvConserved(t: Server)
    requires Inv(t)
    ensures Conserved(t, t.listener, t.slots[0].fd != -1)
  {
    hide ClientFds, SlotsOpen, SlotsConnected, SlotsDistinct, ConnectionsDistinct;
    OpenIsTable(t);
  }

  /** Descriptor conservation between rounds: the listener is held for as long as it reported no loss. */
  lemma DescriptorConservation(s: Server, script: seq<Round>)
    requires Inv(s) && s.slots[0].fd == s.listener && Loops(script)
    ensures Conserved(AfterRun(s, script), s.listener, Healthy(script))
  {
    hide Inv, AfterRun, Conserved;
    RunKeepsInv(s, script);
    InvConserved(AfterRun(s, script));
    InvListener(s);
  }

  /** The same in the middle of a round: wherever a scan has got to, also before the first slot and after the last. */
  lemma ConservationWithinScan(s: Server, script: seq<Round>, reported: Reports, answers: Answers, n: nat)
    requires Inv(s) && s.slots[0].fd == s.listener && Loops(script) && n <= NUMBER_OF_SOCKETS
    ensures var t := Scanned(Polled(Armed(AfterRun(s, script)), reported), 0, n, answers);
            && Conserved(t, s.listener, Healthy(script) && (n > 0 ==> !Lost(reported[0])))
            && AfterRun(s, script + [Ready(reported, answers)]) == ScannedFrom(t, n, answers)
  {
    hide Inv, AfterRun, Conserved, Polled, Armed, Scanned, ScannedFrom;
    var p := Polled(Armed(AfterRun(s, script)), reported);
    RunKeepsInv(s, script);
    PolledKeepsInv(AfterRun(s, script), reported);
    ScannedKeepsInv(p, 0, n, answers);
    InvConserved(Scanned(p, 0, n, answers));
    InvListener(s);
    RunConcat(s, script, [Ready(reported, answers)]);
    OneRound(AfterRun(s, script), Ready(reported, answers));
    ScanGoesOn(p, 0, n, answers);
  }

  /** And wherever a timeout has got to. */
  lemma ConservationWithinTimeout(s: Server, script: seq<Round>, n: nat)
    requires Inv(s) && s.slots[0].fd == s.listener && Loops(script) && 1 <= n <= NUMBER_OF_SOCKETS
    ensures var t := Dropped(Polled(Armed(AfterRun(s, script)), NoReports()), n);
            && Conserved(t, s.listener, Healthy(script))
            && AfterRun(s, script + [TimedOut]) == DroppedFrom(t, n)
  {
    hide Inv, AfterRun, Conserved, Polled, Armed, Dropped, DroppedFrom;
    var p := Polled(Armed(AfterRun(s, script)), NoReports());
    RunKeepsInv(s, script);
    PolledKeepsInv(AfterRun(s, script), NoReports());
    DroppedKeepsInv(AfterRun(s, script), n);
    InvConserved(Dropped(p, n));
    InvListener(s);
    RunConcat(s, script, [TimedOut]);
    OneRound(AfterRun(s, script), TimedOut);
    DropGoesOn(p, n);
  }

  lemma RunLogInv(s: Server, script: seq<Round>)
    requires Inv(s) && Loops(script)
    ensures NoBadDescriptor(AfterRun(s, script).kernel.log)
  {
    hide TableInv, AfterRun;
    RunKeepsInv(s, script);
  }

  /** A timeout, after any rounds, leaves at most the listener open and every connection closed. */
  lemma TimeoutAtEnd(s: Server, script: seq<Round>)
    requires Inv(s) && s.slots[0].fd == s.listener && Loops(script)
    ensures var t := AfterRun(s, script + [TimedOut]);
            && t.kernel.open == (if Healthy(script) then {s.listener} else {}) && t.kernel.conn == map[]
            && forall c :: 0 <= c < t.kernel.next ==> PhaseOf(t.kernel.log, c) == Gone
  {
    hide Inv, AfterRun, AfterRound;
    RunKeepsInv(s, script);
    TimeoutDropsAll(AfterRun(s, script));
    RunConcat(s, script, [TimedOut]);
    OneRound(AfterRun(s, script), TimedOut);
    InvListener(s);
  }

  /**
   A signal, after any rounds, leaves nothing open and every connection closed. Every close
   on the way hits an open descriptor if and only if the listener was never lost.
   */
  lemma SignalAtEnd(s: Server, script: seq<Round>)
    requires Inv(s) && s.slots[0].fd == s.listener && Loops(script)
    ensures var k := AfterRun(s, script + [Signal]).kernel;
            && k.open == {} && (NoBadDescriptor(k.log) <==> Healthy(script))
            && forall c: int :: PhaseOf(k.log, c) == if 0 <= c < k.next then Gone else Unborn
  {
    hide Inv, AfterRun, AfterRound;
    RunKeepsInv(s, script);
    SignalClosesAll(AfterRun(s, script));
    RunConcat(s, script, [Signal]);
    OneRound(AfterRun(s, script), Signal);
    InvListener(s);
  }

  /** A listener that reports a hang-up or an error once is never accepted from again. */
  lemma LostListener(s: Server, reported: Reports, answers: Answers, script: seq<Round>)
    requires Inv(s) && Loops(script) && Lost(reported[0])
    ensures AfterRun(s, [Ready(reported, answers)] + script).kernel.next == s.kernel.next
  {
    hide Inv, AfterRun, AfterRound, Polled, Armed, ClientBlocks;
    var lost := Ready(reported, answers);
    ScanIsAsReported(s, reported, answers);
    PolledKeepsInv(s, reported);
    RunKeepsInv(AfterRound(s, lost), script);
    RunConcat(s, [lost], script);
    OneRound(s, lost);
  }

  /** In a scan after the rounds of a script, a waiting connection is accepted. */
  ghost predicate Accepting(s: Server, script: seq<Round>, reported: Reports, answers: Answers) {
    && Healthy(script) && IsReadable(reported[0]) && answers[0].pending.Accepts?
    && |AfterRun(s, script).kernel.conn.Keys| < 20
  }

  /**
   Acceptance, exactly. After any rounds a scan accepts a connection, and just one, if and
   only if the listener was never lost and reports exactly POLLIN, a connection is waiting,
   and fewer than twenty are open.
   */
  lemma AcceptedExactly(s: Server, script: seq<Round>, reported: Reports, answers: Answers)
    requires Inv(s) && s.slots[0].fd == s.listener && s.slots[0].events == POLLIN && Loops(script)
    ensures var t := AfterRun(s, script);
            var block := ListenerBlock(Polled(Armed(t), reported), answers[0]);
            var u := AfterRun(s, script + [Ready(reported, answers)]);
            && block == (if Accepting(s, script, reported, answers) then [Accepted(t.kernel.next)] else [])
            && u.kernel.next == t.kernel.next + |block|
            && t.kernel.log + block <= u.kernel.log
  {
    hide Inv, AfterRun, AfterRound, Polled, Armed, FirstFree, ClientBlocks;
    var t := AfterRun(s, script);
    RunKeepsInv(s, script);
    InvListener(s);
    ScanIsAsReported(t, reported, answers);
    PolledKeepsInv(t, reported);
    assert TableInv(Polled(Armed(t), reported)) by { InvTable(Polled(Armed(t), reported)); }
    RoomExactly(Polled(Armed(t), reported));
    RunConcat(s, script, [Ready(reported, answers)]);
    OneRound(t, Ready(reported, answers));
  }

  lemma InvTable(s: Server)
    requires Inv(s)
    ensures TableInv(s)
  {
  }

  /**
   Client slots are armed in every round and the listener's once, in setup; in every round
   of every run, what is reported for a slot in use reaches it.
   */
  lemma ReportsArrive(s: Server, script: seq<Round>, reported: Reports, i: nat)
    requires Inv(s) && s.slots[0].events == POLLIN && Loops(script) && i < NUMBER_OF_SOCKETS
    ensures var t := AfterRun(s, script);
            Polled(Armed(t), reported).slots[i].revents == if t.slots[i].fd == -1 then 0 else reported[i]
  {
    hide AfterRun, LogInv;
    RunKeepsInv(s, script);
  }

  // Conversations

  /** Nothing in the log is out of order, for any connection, and the driver saw what it should. */
  ghost predicate LogSound(log: seq<Action>) {
    && (forall c: int :: PhaseOf(log, c) == Unborn || PhaseOf(log, c) == Idle || PhaseOf(log, c) == Gone)
    && DeviceEntries(log) == ExpectedEntries(log)
  }

  lemma InvLogSound(s: Server)
    requires Inv(s)
    ensures LogSound(s.kernel.log)
  {
  }

  /** Any script, ended by a signal or a failing poll or not. */
  lemma {:induction false} AnyRunLogSound(s: Server, script: seq<Round>)
    requires Inv(s)
    ensures LogSound(AfterRun(s, script).kernel.log)
    decreases |script|
  {
    hide Inv, AfterRound;
    if script == [] {
      InvLogSound(s);
    } else {
      match script[0] {
        case PollFails => FailedPollLogSound(s);
        case Signal => SignalLogSound(s);
        case TimedOut =>
          TimeoutDropsAll(s);
          AnyRunLogSound(AfterRound(s, script[0]), script[1..]);
        case Ready(reported, answers) =>
          ScanIsAsReported(s, reported, answers);
          AnyRunLogSound(AfterRound(s, script[0]), script[1..]);
      }
    }
  }

  lemma FailedPollLogSound(s: Server)
    requires Inv(s)
    ensures LogSound(AfterRound(s, PollFails).kernel.log)
  {
    hide Inv;
    InvLogSound(s);
  }

  lemma SignalLogSound(s: Server)
    requires Inv(s)
    ensures LogSound(AfterRound(s, Signal).kernel.log)
  {
    hide Inv, AfterRound;
    SignalClosesAll(s);
  }

  /**
   Whole-run refinement. On every connection the buffers handed to send are, in order,
   exactly the nonempty results of the handler on the messages received there; an empty
   result is that connection's last, and the connection is then closed.
   */
  lemma SequentialService(s: Server, script: seq<Round>, c: int)
    requires Inv(s)
    ensures var log := AfterRun(s, script).kernel.log;
            var turns := TurnsOn(log, c);
            && SentOn(log, c) == Replies(turns)
            && (turns != [] ==> AllAnswered(turns[..|turns| - 1]))
            && (turns != [] && ResponseOf(turns[|turns| - 1]) == [] ==> PhaseOf(log, c) == Gone)
  {
    hide Inv, AfterRun, ResponseOf;
    AnyRunLogSound(s, script);
    PhaseExplains(AfterRun(s, script).kernel.log, c);
  }

  /** The k-th reply is the response to one of the turns. */
  lemma {:induction false} ReplyHasTurn(turns: seq<Turn>, k: nat) returns (n: nat)
    requires k < |Replies(turns)|
    ensures n < |turns| && Replies(turns)[k] == ResponseOf(turns[n]) != []
  {
    hide ResponseOf;
    var front := turns[..|turns| - 1];
    if k < |Replies(front)| {
      n := ReplyHasTurn(front, k);
    } else {
      n := |front|;
    }
  }

  /** Everything ever sent is well framed and addressed to the sender of a message received on that connection. */
  lemma EverySendWellFramed(s: Server, script: seq<Round>, c: int, k: nat)
    requires Inv(s) && k < |SentOn(AfterRun(s, script).kernel.log, c)|
    ensures var log := AfterRun(s, script).kernel.log;
            exists n :: 0 <= n < |TurnsOn(log, c)| && SentOn(log, c)[k] == ResponseOf(TurnsOn(log, c)[n])
                        && WellFramed(TurnsOn(log, c)[n].message, SentOn(log, c)[k])
  {
    hide Inv, AfterRun, WellFramed, Handle;
    var log := AfterRun(s, script).kernel.log;
    SequentialService(s, script, c);
    var n := ReplyHasTurn(TurnsOn(log, c), k);
    EveryResponseWellFramed(TurnsOn(log, c)[n].message, TurnsOn(log, c)[n].outcome);
  }

  // The driver

  /** The call a message stands for, by the grammar of requests. */
  function CalledFor(message: seq<uint8>): Option<DriverRequest> {
    if Parses(message) then
      PrintRead(message);
      SmallPayload(Read(message));
      ExpectedCall(Read(message).command)
    else None
  }

  /** What one message has the driver see: an open, and the request if the device opened. */
  function EntriesFor(message: seq<uint8>, reply: Reply): seq<Action> {
    match CalledFor(message)
    case None => []
    case Some(request) =>
      if reply.OpenFails? then [DeviceOpened(false)] else [DeviceOpened(true), Ioctl(request)]
  }

  /** One call for every received message that is a known request, in the order received. */
  function EntriesByGrammar(log: seq<Action>): seq<Action> {
    if log == [] then []
    else
      var a := log[|log| - 1];
      EntriesByGrammar(log[..|log| - 1])
      + if a.Received? then EntriesFor(a.message, a.outcome.reply) else []
  }

  lemma CalledForIsCall(message: seq<uint8>, o: Outcome)
    ensures Handle(message, o).call == CalledFor(message)
    ensures HandlingLog(Handle(message, o).call, o.reply) == EntriesFor(message, o.reply)
  {
    hide Handle, ExpectedCall, Parses, Read, Payload;
    CallOfMessage(message, o);
  }

  lemma {:induction false} EntriesAgree(log: seq<Action>)
    ensures ExpectedEntries(log) == EntriesByGrammar(log)
  {
    hide Handle, CalledFor, HandlingLog, EntriesFor;
    if log != [] {
      EntriesAgree(log[..|log| - 1]);
      var a := log[|log| - 1];
      if a.Received? {
        CalledForIsCall(a.message, a.outcome);
      }
    }
  }

  /**
   Driver log. In every run the driver is opened once for each received message that is a
   known request, asked exactly what the request says, in the order of reception over all
   connections, and for nothing else.
   */
  lemma DriverSeesRequests(s: Server, script: seq<Round>)
    requires Inv(s)
    ensures DeviceEntries(AfterRun(s, script).kernel.log) == EntriesByGrammar(AfterRun(s, script).kernel.log)
  {
    hide Inv, AfterRun;
    AnyRunLogSound(s, script);
    EntriesAgree(AfterRun(s, script).kernel.log);
  }

  // The shared buffer

  /** Equal up to the contents of the message buffer. */
  predicate AlikeButBuffer(s: Server, t: Server) {
    s.slots == t.slots && s.listener == t.listener && s.kernel == t.kernel
  }

  lemma {:induction false} ScanIgnoresBuffer(s: Server, t: Server, i: nat, answers: Answers)
    requires i <= NUMBER_OF_SOCKETS && AlikeButBuffer(s, t)
    ensures AlikeButBuffer(ScannedFrom(s, i, answers), ScannedFrom(t, i, answers))
    decreases NUMBER_OF_SOCKETS - i
  {
    hide SlotVisited;
    if i < NUMBER_OF_SOCKETS {
      VisitIgnoresBuffer(s, t, i, answers[i]);
      ScanIgnoresBuffer(SlotVisited(s, i, answers[i]), SlotVisited(t, i, answers[i]), i + 1, answers);
    }
  }

  lemma VisitIgnoresBuffer(s: Server, t: Server, i: nat, a: SlotAnswer)
    requires i < NUMBER_OF_SOCKETS && AlikeButBuffer(s, t)
    ensures AlikeButBuffer(SlotVisited(s, i, a), SlotVisited(t, i, a))
  {
    hide Handle, AfterReceive, AfterClose, AfterSend, AfterAccept, FirstFree;
  }

  lemma {:induction false} DropIgnoresBuffer(s: Server, t: Server, i: nat)
    requires 1 <= i <= NUMBER_OF_SOCKETS && AlikeButBuffer(s, t)
    ensures AlikeButBuffer(DroppedFrom(s, i), DroppedFrom(t, i))
    ensures ClosedFrom(s, i).kernel == ClosedFrom(t, i).kernel
    decreases NUMBER_OF_SOCKETS - i
  {
    hide AfterClose;
    if i < NUMBER_OF_SOCKETS {
      if s.slots[i].fd != -1 {
        DropIgnoresBuffer(SlotClosed(s, i), SlotClosed(t, i), i + 1);
        CloseIsDrop(s, s, i);
        CloseIsDrop(t, t, i);
      } else {
        DropIgnoresBuffer(s, t, i + 1);
      }
    }
  }

  /** Nothing a run does depends on what the shared message buffer held before. */
  lemma {:induction false} BufferHistoryIrrelevant(s: Server, t: Server, script: seq<Round>)
    requires AlikeButBuffer(s, t)
    ensures AfterRun(s, script).kernel == AfterRun(t, script).kernel
    decreases |script|
  {
    hide AfterRound;
    if script != [] {
      RoundIgnoresBuffer(s, t, script[0]);
      if script[0].TimedOut? || script[0].Ready? {
        BufferHistoryIrrelevant(AfterRound(s, script[0]), AfterRound(t, script[0]), script[1..]);
      }
    }
  }

  lemma RoundIgnoresBuffer(s: Server, t: Server, round: Round)
    requires AlikeButBuffer(s, t)
    ensures AfterRound(s, round).kernel == AfterRound(t, round).kernel
    ensures round.TimedOut? || round.Ready? ==> AlikeButBuffer(AfterRound(s, round), AfterRound(t, round))
  {
    hide ScannedFrom, DroppedFrom, ClosedFrom;
    match round
    case PollFails =>
    case Signal => DropIgnoresBuffer(s, t, 1);
    case TimedOut =>
      DropIgnoresBuffer(Polled(Armed(s), NoReports()), Polled(Armed(t), NoReports()), 1);
    case Ready(reported, answers) =>
      ScanIgnoresBuffer(Polled(Armed(s), reported), Polled(Armed(t), reported), 0, answers);
  }

  // The program

  /**
   The program, from setup through any script: the kernel it leaves is that of the run
   function, so what is proved of runs holds of the classes. In particular the log answers
   every connection as the handler does, in order, and calls the driver by the grammar.
   */
  method Serve(wish: int, script: seq<Round>) returns (result: KernelState)
    ensures result == AfterRun(AfterSetup(FIRST_SERVER, wish), script).kernel
    ensures forall c: int :: SentOn(result.log, c) == Replies(TurnsOn(result.log, c))
    ensures DeviceEntries(result.log) == EntriesByGrammar(result.log)
    ensures Loops(script) ==> NoBadDescriptor(result.log)
  {
    hide AfterRun, Inv, AfterSetup;
    var kernel := new Kernel(FIRST_KERNEL);
    assert Sane(kernel.state);
    var server := new TcpServer(kernel);
    assert server.Value() == FIRST_SERVER;
    server.Setup(wish);
    ghost var started := server.Value();
    SetupStarts(FIRST_SERVER, wish);
    server.Run(script);
    result := kernel.state;
    forall c: int ensures SentOn(result.log, c) == Replies(TurnsOn(result.log, c)) {
      SequentialService(started, script, c);
    }
    DriverSeesRequests(started, script);
    if Loops(script) {
      RunLogInv(started, script);
    }
  }
}
