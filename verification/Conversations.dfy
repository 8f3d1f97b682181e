/**
 The conversation on one connection, as a function of what poll, recv and the driver
 answer for its slot: nothing else in a run makes a difference to it.
 */
module Conversations {
  import opened Bits
  import opened Utils
  import opened Headers
  import opened Protocol
  import opened RequestGrammar
  import opened Kernels
  import opened MessageHandler
  import opened HandlerProperties
  import opened TcpServers
  import opened ConnectionLog
  import opened ScanSteps
  import opened ServerRuns
  import opened PartialRounds
  import opened RunTheorems

  /** What the environment puts to one client slot. */
  datatype Input = Readable(incoming: Incoming, outcome: Outcome, sendFails: bool) | HangUp

  function InputOf(revents: int, a: SlotAnswer): seq<Input> {
    if IsReadable(revents) then [Readable(a.incoming, a.outcome, a.sendFails)]
    else if Lost(revents) then [HangUp]
    else []
  }

  /** The inputs to slot i, in order. Rounds that report no event for it leave no trace. */
  function InputsAt(script: seq<Round>, i: nat): seq<Input>
    requires i < NUMBER_OF_SOCKETS
    decreases |script|
  {
    if script == [] then []
    else match script[0]
      case PollFails => []
      case Signal => [HangUp]
      case TimedOut => [HangUp] + InputsAt(script[1..], i)
      case Ready(reported, answers) => InputOf(reported[i], answers[i]) + InputsAt(script[1..], i)
  }

  /** A log entry about a connection, without the number the connection happens to have. */
  function EntryOn(a: Action, c: int): seq<Action> {
    match a
    case Accepted(d) => if d == c then [Accepted(0)] else []
    case Received(d, message, outcome) => if d == c then [Received(0, message, outcome)] else []
    case Sent(d, response, failed) => if d == c then [Sent(0, response, failed)] else []
    case Closed(d) => if d == c then [Closed(0)] else []
    case _ => []
  }

  /** The conversation on a connection: the log's entries about it, in order. */
  function EntriesOn(log: seq<Action>, c: int): seq<Action> {
    if log == [] then [] else EntriesOn(log[..|log| - 1], c) + EntryOn(log[|log| - 1], c)
  }

  /** One event: read, answer and go on, or close. */
  function Exchange(input: Input): seq<Action> {
    if input.HangUp? || input.incoming.RecvFails? || input.incoming.bytes == [] then [Closed(0)]
    else
      var message := Delivered(input.incoming.bytes, 10000);
      var response := Handle(message, input.outcome).response;
      [Received(0, message, input.outcome)]
      + [if response == [] then Closed(0) else Sent(0, response, input.sendFails)]
  }

  /** A connection's whole conversation. It ends with its first close. */
  function Conversation(inputs: seq<Input>): seq<Action> {
    if inputs == [] then []
    else if Closes(Exchange(inputs[0])) then Exchange(inputs[0])
    else Exchange(inputs[0]) + Conversation(inputs[1..])
  }

  lemma ConversationGoesOn(a: SlotAnswer, revents: int, inputs: seq<Input>)
    ensures var first := Conversation(InputOf(revents, a));
            Conversation(InputOf(revents, a) + inputs) == if Closes(first) then first else first + Conversation(inputs)
  {
    hide Exchange;
    var now := InputOf(revents, a);
    if now == [] {
      assert now + inputs == inputs;
    } else {
      assert (now + inputs)[1..] == inputs && now[1..] == [];
      assert Exchange(now[0]) + [] == Exchange(now[0]);
    }
  }

  lemma NothingSaid()
    ensures Conversation([]) == []
  {
  }

  lemma HangUpEnds(inputs: seq<Input>)
    ensures Conversation([HangUp] + inputs) == Conversation([HangUp]) == [Closed(0)]
  {
    assert ([HangUp] + inputs)[0] == HangUp;
  }

  /** Slot i holds connection c. */
  predicate Serves(s: Server, i: nat, c: int)
    requires i < NUMBER_OF_SOCKETS
  {
    s.slots[i].fd in s.kernel.conn && s.kernel.conn[s.slots[i].fd] == c
  }

  // Entries about one connection

  lemma EntriesSnoc(log: seq<Action>, a: Action, c: int)
    ensures EntriesOn(log + [a], c) == EntriesOn(log, c) + EntryOn(a, c)
  {
    hide EntryOn;
    assert (log + [a])[..|log|] == log;
  }

  lemma Regrouped(x: seq<Action>, y: seq<Action>, z: seq<Action>)
    ensures x + (y + z) == x + y + z
  {
  }

  lemma {:induction false} EntriesConcat(log: seq<Action>, tail: seq<Action>, c: int)
    ensures EntriesOn(log + tail, c) == EntriesOn(log, c) + EntriesOn(tail, c)
    decreases |tail|
  {
    hide EntryOn;
    if tail == [] {
      assert log + tail == log;
    } else {
      hide EntriesOn;
      var front, last := tail[..|tail| - 1], tail[|tail| - 1];
      EntriesConcat(log, front, c);
      EntriesSnoc(log + front, last, c);
      EntriesSnoc(front, last, c);
      Regrouped(log, front, [last]);
      Regrouped(EntriesOn(log, c), EntriesOn(front, c), EntryOn(last, c));
      assert tail == front + [last];
    }
  }

  lemma {:induction false} NoEntries(log: seq<Action>, c: int)
    requires forall i :: 0 <= i < |log| ==> EntryOn(log[i], c) == []
    ensures EntriesOn(log, c) == []
  {
    hide EntryOn;
    if log != [] {
      NoEntries(log[..|log| - 1], c);
    }
  }

  lemma OneEntry(a: Action, c: int)
    ensures EntriesOn([a], c) == EntryOn(a, c)
  {
    assert [a][..0] == [];
  }

  lemma {:induction false} BrokenForGood(tail: seq<Action>, c: int)
    ensures Advanced(Broken, tail, c) == Broken
    decreases |tail|
  {
    if tail != [] {
      BrokenForGood(tail[1..], c);
    }
  }

  lemma FirstEntryWhenGone(a: Action, c: int)
    ensures Next(Gone, a, c) == if EntryOn(a, c) == [] then Gone else Broken
  {
    hide Handle;
  }

  lemma {:induction false} GoneForGood(tail: seq<Action>, c: int)
    requires Advanced(Gone, tail, c) != Broken
    ensures EntriesOn(tail, c) == []
    decreases |tail|
  {
    hide Next, EntryOn;
    if tail != [] {
      FirstEntryWhenGone(tail[0], c);
      BrokenForGood(tail[1..], c);
      GoneForGood(tail[1..], c);
      OneEntry(tail[0], c);
      EntriesConcat([tail[0]], tail[1..], c);
      assert tail == [tail[0]] + tail[1..];
    }
  }

  /** After its close nothing is ever logged about a connection, whatever becomes of its slot and descriptor. */
  lemma SilentAfterClose(s: Server, script: seq<Round>, c: int)
    requires Inv(s) && PhaseOf(s.kernel.log, c) == Gone
    ensures EntriesOn(AfterRun(s, script).kernel.log, c) == EntriesOn(s.kernel.log, c)
  {
    hide Inv, AfterRun, PhaseOf;
    var log, more := s.kernel.log, AfterRun(s, script).kernel.log;
    LogGrows(s, script);
    AnyRunLogSound(s, script);
    var tail := more[|log|..];
    assert more == log + tail;
    PhaseConcat(log, tail, c);
    GoneForGood(tail, c);
    EntriesConcat(log, tail, c);
  }

  // Rounds

  /** A signal is a timeout and the close of the listener. */
  lemma SignalRound(s: Server)
    ensures AfterRound(s, Signal).kernel == AfterClose(AfterRound(s, TimedOut).kernel, s.listener)
  {
    hide AfterClose, ClosedFrom, DroppedFrom, Polled, Armed;
    PolledHoldings(s, NoReports());
    CloseIsDrop(s, Polled(Armed(s), NoReports()), 1);
  }

  lemma CloseLogGrows(k: KernelState, fd: int)
    ensures k.log <= AfterClose(k, fd).log
  {
  }

  lemma TimeoutLogGrows(s: Server)
    requires Inv(s)
    ensures s.kernel.log <= AfterRound(s, TimedOut).kernel.log
  {
    hide Inv, Polled, Armed, AfterRound, ListenerBlock, ClientBlocks;
    TimeoutRound(s);
    ScanIsAsReported(s, HANG_UPS, NO_ANSWERS);
  }

  lemma RoundLogGrows(s: Server, round: Round)
    requires Inv(s)
    ensures s.kernel.log <= AfterRound(s, round).kernel.log
  {
    hide Inv, Polled, Armed, AfterRound, AfterClose, ListenerBlock, ClientBlocks;
    match round
    case PollFails => PollFailsKeepsKernel(s);
    case Signal =>
      SignalRound(s);
      TimeoutLogGrows(s);
      CloseLogGrows(AfterRound(s, TimedOut).kernel, s.listener);
    case TimedOut => TimeoutLogGrows(s);
    case Ready(reported, answers) => ScanIsAsReported(s, reported, answers);
  }

  lemma PollFailsKeepsKernel(s: Server)
    ensures AfterRound(s, PollFails).kernel == s.kernel
  {
  }

  lemma {:induction false} LogGrows(s: Server, script: seq<Round>)
    requires Inv(s)
    ensures s.kernel.log <= AfterRun(s, script).kernel.log
    decreases |script|
  {
    hide Inv, AfterRound;
    if script != [] {
      RoundLogGrows(s, script[0]);
      if script[0].TimedOut? || script[0].Ready? {
        RoundKeepsInv(s, script[0]);
        LogGrows(AfterRound(s, script[0]), script[1..]);
      }
    }
  }

  lemma RoundKeepsInv(s: Server, round: Round)
    requires Inv(s) && (round.TimedOut? || round.Ready?)
    ensures Inv(AfterRound(s, round))
  {
    hide Inv, AfterRound;
    if round.TimedOut? {
      TimeoutDropsAll(s);
    } else {
      ScanIsAsReported(s, round.reported, round.answers);
    }
  }

  // One slot in a scan

  lemma BlockOfAnother(d: int, revents: int, a: SlotAnswer, c: int)
    requires c != d
    ensures EntriesOn(VisitBlock(d, revents, a), c) == []
  {
    hide VisitBlock;
    var block := VisitBlock(d, revents, a);
    forall n | 0 <= n < |block| ensures EntryOn(block[n], c) == [] {
      BlockIsAbout(d, revents, a, n);
    }
    NoEntries(block, c);
  }

  lemma SomeDelivered(bytes: seq<uint8>)
    ensures Delivered(bytes, MAX_MESSAGE_SIZE_IN_BYTES) == [] <==> bytes == []
  {
  }

  /** A visit's block is one exchange of the conversation, with the driver's entries left out. */
  lemma BlockOfOwn(c: int, revents: int, a: SlotAnswer)
    ensures EntriesOn(VisitBlock(c, revents, a), c) == Conversation(InputOf(revents, a))
    ensures Closes(VisitBlock(c, revents, a)) <==> Closes(Conversation(InputOf(revents, a)))
  {
    hide Handle, HandlingLog, Delivered, EntriesOn;
    if a.incoming.Data? {
      SomeDelivered(a.incoming.bytes);
    }
    if revents == POLLIN && a.incoming.Data? && Delivered(a.incoming.bytes, MAX_MESSAGE_SIZE_IN_BYTES) != [] {
      var message := Delivered(a.incoming.bytes, MAX_MESSAGE_SIZE_IN_BYTES);
      var handled := Handle(message, a.outcome);
      var first, middle := Received(c, message, a.outcome), HandlingLog(handled.call, a.outcome.reply);
      var last := if handled.response == [] then Closed(c) else Sent(c, handled.response, a.sendFails);
      DriverEntriesAside(handled.call, a.outcome.reply, c);
      EntriesConcat([first] + middle, [last], c);
      EntriesConcat([first], middle, c);
      OneEntry(first, c);
      OneEntry(last, c);
    } else {
      OneEntry(Closed(c), c);
      NoEntries([], c);
    }
  }

  lemma DriverEntriesAside(call: Option<DriverRequest>, reply: Reply, c: int)
    ensures EntriesOn(HandlingLog(call, reply), c) == []
  {
    NoEntries(HandlingLog(call, reply), c);
  }

  /** A step that leaves slot i, what was reported for it and its conversation alone. */
  ghost predicate Untouched(s: Server, t: Server, i: nat, c: int)
    requires i < NUMBER_OF_SOCKETS
  {
    && t.slots[i].revents == s.slots[i].revents
    && Serves(t, i, c)
    && EntriesOn(t.kernel.log, c) == EntriesOn(s.kernel.log, c)
  }

  lemma OtherVisit(s: Server, n: nat, a: SlotAnswer, i: nat, c: int)
    requires Inv(s) && 1 <= n < NUMBER_OF_SOCKETS && i < NUMBER_OF_SOCKETS && n != i && Serves(s, i, c)
    ensures Untouched(s, SlotVisited(s, n, a), i, c)
  {
    hide LogInv, MessageServed, ConnectionAccepted, VisitBlock, EntriesOn;
    if s.slots[n].fd != -1 {
      var d := s.kernel.conn[s.slots[n].fd];
      var block := VisitBlock(d, s.slots[n].revents, a);
      ClientVisited(s, n, a);
      BlockOfAnother(d, s.slots[n].revents, a, c);
      EntriesConcat(s.kernel.log, block, c);
    }
  }

  lemma ListenerVisit(p: Server, a: SlotAnswer, i: nat, c: int)
    requires Inv(p) && ReportedProperly(p) && 1 <= i < NUMBER_OF_SOCKETS && Serves(p, i, c)
    ensures Untouched(p, SlotVisited(p, 0, a), i, c)
  {
    hide LogInv, SlotVisited, EntriesOn, SlotsOpen, SlotsDistinct, FirstFree;
    var block := ListenerBlock(p, a);
    ListenerVisited(p, a);
    ListenerDisturbsNothing(p, a);
    assert Undisturbed(p, SlotVisited(p, 0, a), i);
    NoEntries([], c);
    OneEntry(Accepted(p.kernel.next), c);
    EntriesConcat(p.kernel.log, block, c);
  }

  /** A step that carried on the conversation in slot i, to its end or not. */
  ghost predicate Conversed(s: Server, t: Server, i: nat, c: int, inputs: seq<Input>)
    requires i < NUMBER_OF_SOCKETS
  {
    && EntriesOn(t.kernel.log, c) == EntriesOn(s.kernel.log, c) + Conversation(inputs)
    && if Closes(Conversation(inputs)) then PhaseOf(t.kernel.log, c) == Gone else Serves(t, i, c)
  }

  lemma OwnVisit(s: Server, i: nat, a: SlotAnswer, c: int)
    requires Inv(s) && 1 <= i < NUMBER_OF_SOCKETS && Serves(s, i, c)
    ensures Conversed(s, SlotVisited(s, i, a), i, c, InputOf(s.slots[i].revents, a))
  {
    hide SlotsOpen, MessageServed, ConnectionAccepted, SlotVisited, VisitBlock;
    hide EntriesOn, InputOf, Conversation, PhaseOf;
    var t, block := SlotVisited(s, i, a), VisitBlock(c, s.slots[i].revents, a);
    ConnectedSlot(s, i);
    ClientVisited(s, i, a);
    ClientVisitKeepsInv(s, i, a);
    BlockOfOwn(c, s.slots[i].revents, a);
    EntriesConcat(s.kernel.log, block, c);
    if Closes(block) {
      LiveAfterRemoval(s.kernel, t.kernel, s.slots[i].fd, c);
    }
  }

  lemma ConnectedSlot(s: Server, i: nat)
    requires TableInv(s) && i < NUMBER_OF_SOCKETS && s.slots[i].fd in s.kernel.conn
    ensures s.slots[i].fd != -1
  {
  }

  lemma GoneVisit(s: Server, n: nat, a: SlotAnswer, c: int)
    requires Inv(s) && 1 <= n < NUMBER_OF_SOCKETS && PhaseOf(s.kernel.log, c) == Gone
    ensures PhaseOf(SlotVisited(s, n, a).kernel.log, c) == Gone
    ensures EntriesOn(SlotVisited(s, n, a).kernel.log, c) == EntriesOn(s.kernel.log, c)
  {
    hide SlotsOpen, MessageServed, ConnectionAccepted, VisitBlock, EntriesOn, PhaseOf;
    if s.slots[n].fd != -1 {
      var d := s.kernel.conn[s.slots[n].fd];
      var block := VisitBlock(d, s.slots[n].revents, a);
      assert LiveConnection(s.kernel, d);
      ClientVisited(s, n, a);
      BlockOfAnother(d, s.slots[n].revents, a, c);
      BlockPhases(d, s.slots[n].revents, a, c, Gone);
      EntriesConcat(s.kernel.log, block, c);
      PhaseConcat(s.kernel.log, block, c);
    }
  }

  /** A scan leaves the conversation alone until it comes to slot i, carries it on there, and leaves it alone again. */
  lemma {:induction false} SlotInScan(p: Server, lo: nat, hi: nat, answers: Answers, i: nat, c: int)
    requires Inv(p) && lo <= i && 1 <= i < NUMBER_OF_SOCKETS && lo <= hi <= NUMBER_OF_SOCKETS && Serves(p, i, c)
    requires lo == 0 ==> ReportedProperly(p)
    ensures var t := Scanned(p, lo, hi, answers);
            if hi <= i then Untouched(p, t, i, c) else Conversed(p, t, i, c, InputOf(p.slots[i].revents, answers[i]))
  {
    hide Inv, SlotVisited, EntriesOn, PhaseOf, Conversation, InputOf, ReportedProperly;
    if lo < hi {
      var t := Scanned(p, lo, hi - 1, answers);
      SlotInScan(p, lo, hi - 1, answers, i, c);
      ScannedKeepsInv(p, lo, hi - 1, answers);
      if hi == 1 {
        ListenerVisit(p, answers[0], i, c);
      } else if hi - 1 == i {
        OwnVisit(t, i, answers[i], c);
      } else if hi - 1 < i || !Closes(Conversation(InputOf(p.slots[i].revents, answers[i]))) {
        OtherVisit(t, hi - 1, answers[hi - 1], i, c);
      } else {
        GoneVisit(t, hi - 1, answers[hi - 1], c);
      }
    }
  }

  // One slot in a round, and in a run

  lemma PolledSlot(s: Server, reported: Reports, i: nat, c: int)
    requires Inv(s) && 1 <= i < NUMBER_OF_SOCKETS && Serves(s, i, c)
    ensures Serves(Polled(Armed(s), reported), i, c)
    ensures Polled(Armed(s), reported).slots[i].revents == reported[i]
    ensures ReportedProperly(Polled(Armed(s), reported))
  {
    ConnectedSlot(s, i);
  }

  lemma SlotInReadyRound(s: Server, reported: Reports, answers: Answers, i: nat, c: int)
    requires Inv(s) && 1 <= i < NUMBER_OF_SOCKETS && Serves(s, i, c)
    ensures Conversed(s, AfterRound(s, Ready(reported, answers)), i, c, InputOf(reported[i], answers[i]))
  {
    hide Inv, Polled, Armed, ReportedProperly, ScannedFrom, Scanned, EntriesOn, Conversation, PhaseOf;
    var p := Polled(Armed(s), reported);
    PolledSlot(s, reported, i, c);
    PolledKeepsInv(s, reported);
    SlotInScan(p, 0, NUMBER_OF_SOCKETS, answers, i, c);
    WholeScan(p, answers);
  }

  lemma SlotInTimeout(s: Server, i: nat, c: int)
    requires Inv(s) && 1 <= i < NUMBER_OF_SOCKETS && Serves(s, i, c)
    ensures Conversed(s, AfterRound(s, TimedOut), i, c, [HangUp])
  {
    hide Inv, AfterRound, EntriesOn, PhaseOf;
    TimeoutRound(s);
    SlotInReadyRound(s, HANG_UPS, NO_ANSWERS, i, c);
  }

  lemma SlotInSignal(s: Server, i: nat, c: int)
    requires Inv(s) && 1 <= i < NUMBER_OF_SOCKETS && Serves(s, i, c)
    ensures EntriesOn(AfterRound(s, Signal).kernel.log, c) == EntriesOn(s.kernel.log, c) + [Closed(0)]
  {
    hide Inv, AfterRound, EntriesOn, PhaseOf;
    SlotInTimeout(s, i, c);
    SignalRound(s);
    TimeoutDropsAll(s);
    var k := AfterRound(s, TimedOut).kernel;
    OneEntry(BadDescriptor(s.listener), c);
    EntriesConcat(k.log, [BadDescriptor(s.listener)], c);
  }

  /**
   The conversation on a connection is what the handler makes of its own slot's inputs, up
   to the first close. Other connections, the descriptor and connection numbers, the
   shared buffer, and who uses the slot afterwards make no difference.
   */
  lemma {:induction false} ConversationOfSlot(s: Server, script: seq<Round>, i: nat, c: int)
    requires Inv(s) && 1 <= i < NUMBER_OF_SOCKETS && Serves(s, i, c)
    ensures EntriesOn(AfterRun(s, script).kernel.log, c) ==
            EntriesOn(s.kernel.log, c) + Conversation(InputsAt(script, i))
    decreases |script|
  {
    hide Inv, AfterRound, EntriesOn, PhaseOf, Exchange, Conversation, InputOf;
    NothingSaid();
    if script != [] {
      var t := AfterRound(s, script[0]);
      match script[0] {
        case PollFails => PollFailsKeepsKernel(s);
        case Signal =>
          SlotInSignal(s, i, c);
          HangUpEnds([]);
        case TimedOut =>
          SlotInTimeout(s, i, c);
          HangUpEnds(InputsAt(script[1..], i));
          RoundKeepsInv(s, TimedOut);
          SilentAfterClose(t, script[1..], c);
        case Ready(reported, answers) =>
          SlotInReadyRound(s, reported, answers, i, c);
          ConversationGoesOn(answers[i], reported[i], InputsAt(script[1..], i));
          RoundKeepsInv(s, script[0]);
          if Closes(Conversation(InputOf(reported[i], answers[i]))) {
            SilentAfterClose(t, script[1..], c);
          } else {
            ConversationOfSlot(t, script[1..], i, c);
          }
      }
    }
  }

  /**
   Noninterference. Two connections, in any two states, slots and runs: if the inputs to
   their slots are the same from there on, so are the conversations, whatever is reported
   and answered for the other slots, and however many rounds that takes.
   */
  lemma Noninterference(s: Server, script: seq<Round>, i: nat, c: int,
                        s': Server, script': seq<Round>, i': nat, c': int)
    requires Inv(s) && 1 <= i < NUMBER_OF_SOCKETS && Serves(s, i, c)
    requires Inv(s') && 1 <= i' < NUMBER_OF_SOCKETS && Serves(s', i', c')
    requires InputsAt(script, i) == InputsAt(script', i')
    ensures var was, now := EntriesOn(s.kernel.log, c), EntriesOn(AfterRun(s, script).kernel.log, c);
            var was', now' := EntriesOn(s'.kernel.log, c'), EntriesOn(AfterRun(s', script').kernel.log, c');
            was <= now && was' <= now' && now[|was|..] == now'[|was'|..]
  {
    hide Inv, AfterRun, EntriesOn, Conversation, InputsAt;
    ConversationOfSlot(s, script, i, c);
    ConversationOfSlot(s', script', i', c');
  }

  // Messages in a run

  /** The receive buffer holds any well-formed request whole. */
  lemma RequestDelivered(r: Request)
    requires WellFormed(r)
    ensures Delivered(Print(r), MAX_MESSAGE_SIZE_IN_BYTES) == Print(r)
  {
    ReadPrinted(r);
    AcceptedSize(FRESH_PROTOCOL, Print(r));
  }

  /** A delivery that fills the receive buffer, and so may have been cut, is rejected and reaches no driver. */
  lemma FullBufferRejected(bytes: seq<uint8>, o: Outcome)
    requires |bytes| >= MAX_MESSAGE_SIZE_IN_BYTES
    ensures var message := Delivered(bytes, MAX_MESSAGE_SIZE_IN_BYTES);
            && |message| == MAX_MESSAGE_SIZE_IN_BYTES && Handle(message, o).call == None
            && |Handle(message, o).response| == 4 && HeaderOf(Handle(message, o).response).code == 0x04
  {
    OverlongRejected(Delivered(bytes, MAX_MESSAGE_SIZE_IN_BYTES), o);
  }

  /** What follows a message: an answer and the rest of the conversation, or a close for silence. */
  function AfterMessage(reaction: Reaction, response: seq<uint8>, failed: bool, inputs: seq<Input>): seq<Action> {
    if reaction.Silence? then [Closed(0)] else [Sent(0, response, failed)] + Conversation(inputs)
  }

  lemma MessageExchange(input: Input, message: seq<uint8>, inputs: seq<Input>) returns (response: seq<uint8>)
    requires input.Readable? && input.incoming.Data? && input.incoming.bytes != []
    requires message == Delivered(input.incoming.bytes, 10000)
    ensures var request, reaction := RequestHeaderOf(message), ReactionToMessage(message, input.outcome);
            && ReadsAs(response, request.client, request.id, reaction)
            && Conversation([input] + inputs) == [Received(0, message, input.outcome)]
                                                 + AfterMessage(reaction, response, input.sendFails, inputs)
  {
    hide Handle, ReactionToMessage, Delivered, Conversation;
    response := Handle(message, input.outcome).response;
    ResponseOfMessage(message, input.outcome);
    FirstExchange(input, inputs);
    Regrouped([Received(0, message, input.outcome)], [Sent(0, response, input.sendFails)], Conversation(inputs));
  }

  lemma FirstExchange(input: Input, inputs: seq<Input>)
    ensures Conversation([input] + inputs)
         == if Closes(Exchange(input)) then Exchange(input) else Exchange(input) + Conversation(inputs)
  {
    hide Exchange;
    assert ([input] + inputs)[1..] == inputs;
  }

  /**
   Any message in any run. What arrives on a connection is received, up to 10000 bytes of
   it, and answered there and then with what the grammar calls for, or with a close if
   that is silence; only after an answer does the conversation go on.
   */
  lemma MessageInRun(s: Server, reported: Reports, answers: Answers, script: seq<Round>, i: nat, c: int)
    returns (response: seq<uint8>)
    requires Inv(s) && 1 <= i < NUMBER_OF_SOCKETS && Serves(s, i, c)
    requires IsReadable(reported[i]) && answers[i].incoming.Data? && answers[i].incoming.bytes != []
    ensures var a, run := answers[i], [Ready(reported, answers)] + script;
            var message := Delivered(a.incoming.bytes, 10000);
            var request, reaction := RequestHeaderOf(message), ReactionToMessage(message, a.outcome);
            && ReadsAs(response, request.client, request.id, reaction)
            && EntriesOn(AfterRun(s, run).kernel.log, c) ==
               EntriesOn(s.kernel.log, c)
               + ([Received(0, message, a.outcome)]
                  + AfterMessage(reaction, response, a.sendFails, InputsAt(script, i)))
  {
    hide Inv, AfterRun, EntriesOn, Conversation, AfterMessage, ReactionToMessage, ReadsAs, Delivered;
    var round, a := Ready(reported, answers), answers[i];
    var input := Readable(a.incoming, a.outcome, a.sendFails);
    response := MessageExchange(input, Delivered(a.incoming.bytes, 10000), InputsAt(script, i));
    ConversationOfSlot(s, [round] + script, i, c);
    assert ([round] + script)[1..] == script;
    assert InputsAt([round] + script, i) == [input] + InputsAt(script, i);
  }

  /** A well-formed request in any run arrives whole and gets the reaction it should. */
  lemma RequestInRun(s: Server, reported: Reports, answers: Answers, script: seq<Round>, i: nat, c: int, r: Request)
    returns (response: seq<uint8>)
    requires Inv(s) && 1 <= i < NUMBER_OF_SOCKETS && Serves(s, i, c)
    requires IsReadable(reported[i]) && WellFormed(r) && answers[i].incoming == Data(Print(r))
    ensures var a, run := answers[i], [Ready(reported, answers)] + script;
            var reaction := ReactionTo(r.command, a.outcome);
            && ReadsAs(response, r.client, r.id, reaction)
            && EntriesOn(AfterRun(s, run).kernel.log, c) ==
               EntriesOn(s.kernel.log, c)
               + ([Received(0, Print(r), a.outcome)]
                  + AfterMessage(reaction, response, a.sendFails, InputsAt(script, i)))
  {
    hide Inv, AfterRun, EntriesOn, ReactionTo, ReadsAs, AfterMessage, Print;
    RequestDelivered(r);
    RequestByBytes(r);
    ReadPrinted(r);
    response := MessageInRun(s, reported, answers, script, i, c);
  }

  // From the beginning

  lemma {:induction false} UnbornSilent(log: seq<Action>, c: int)
    requires PhaseOf(log, c) == Unborn
    ensures EntriesOn(log, c) == []
  {
    hide Handle;
    if log != [] {
      UnbornSilent(log[..|log| - 1], c);
    }
  }

  lemma SameFree(a: Table, b: Table)
    requires forall i :: 0 <= i < NUMBER_OF_SOCKETS ==> a[i].fd == b[i].fd
    ensures FirstFree(a, 1) == FirstFree(b, 1)
  {
    hide FirstFree;
  }

  /** The listener's visit puts a new connection into the first free slot, with nothing reported there. */
  lemma AcceptVisit(p: Server, a: SlotAnswer)
    requires Inv(p) && ReportedProperly(p) && ListenerBlock(p, a) != []
    ensures var j, t := FirstFree(p.slots, 1), SlotVisited(p, 0, a);
            && 1 <= j < NUMBER_OF_SOCKETS && Serves(t, j, p.kernel.next)
            && t.slots[j].revents == 0
            && EntriesOn(t.kernel.log, p.kernel.next) == [Accepted(0)]
  {
    hide PhaseOf, EntriesOn, ConnectionAccepted, FirstFree, FreshFd, SlotsDistinct;
    var c := p.kernel.next;
    ListenerOpen(p);
    AcceptedState(p, a.pending);
    assert PhaseNow(p.kernel, c) == Unborn;
    UnbornSilent(p.kernel.log, c);
    EntriesConcat(p.kernel.log, [Accepted(c)], c);
    OneEntry(Accepted(c), c);
  }

  lemma AcceptRound(s: Server, reported: Reports, answers: Answers)
    requires Inv(s) && ListenerBlock(Polled(Armed(s), reported), answers[0]) != []
    ensures var j, t := FirstFree(s.slots, 1), AfterRound(s, Ready(reported, answers));
            && 1 <= j < NUMBER_OF_SOCKETS && Serves(t, j, s.kernel.next)
            && EntriesOn(t.kernel.log, s.kernel.next) == [Accepted(0)]
  {
    hide Inv, EntriesOn, PhaseOf, SlotVisited, ListenerBlock, Scanned, FirstFree, Conversation;
    var p := Polled(Armed(s), reported);
    var t := SlotVisited(p, 0, answers[0]);
    var j := FirstFree(p.slots, 1);
    PolledKeepsInv(s, reported);
    SameFree(s.slots, p.slots);
    ListenerVisited(p, answers[0]);
    AcceptVisit(p, answers[0]);
    SlotInScan(t, 1, NUMBER_OF_SOCKETS, answers, j, s.kernel.next);
    NothingSaid();
    ScanGoesOn(t, 1, NUMBER_OF_SOCKETS, answers);
    assert ScannedFrom(p, 0, answers) == ScannedFrom(t, 1, answers);
  }

  /**
   Every conversation in full: a connection accepted in a round is put into the slot that
   was first free, and all the log ever says about it is that, and what the handler makes
   of the inputs to that slot in later rounds, up to the first close.
   */
  lemma ConversationFromAccept(s: Server, reported: Reports, answers: Answers, script: seq<Round>)
    requires Inv(s) && ListenerBlock(Polled(Armed(s), reported), answers[0]) != []
    ensures FirstFree(s.slots, 1) < NUMBER_OF_SOCKETS
    ensures EntriesOn(AfterRun(s, [Ready(reported, answers)] + script).kernel.log, s.kernel.next) ==
            [Accepted(0)] + Conversation(InputsAt(script, FirstFree(s.slots, 1)))
  {
    hide Inv, AfterRun, AfterRound, EntriesOn, Conversation, InputsAt, ListenerBlock, Polled, Armed, FirstFree;
    var round := Ready(reported, answers);
    AcceptRound(s, reported, answers);
    RoundKeepsInv(s, round);
    RunConcat(s, [round], script);
    OneRound(s, round);
    ConversationOfSlot(AfterRound(s, round), script, FirstFree(s.slots, 1), s.kernel.next);
  }
}
