/**
 The connection table and the poll loop.
 */
module TcpServers {
  import opened Bits
  import opened Utils
  import opened Kernels
  import opened MessageHandler

  const MAX_NUMBER_OF_CONNECTIONS := 20
  const NUMBER_OF_SOCKETS := MAX_NUMBER_OF_CONNECTIONS + 1
  const MAX_MESSAGE_SIZE_IN_BYTES := 10000

  datatype PollFd = PollFd(fd: int, events: int, revents: int)

  const EMPTY_SLOT := PollFd(-1, 0, 0)

  type Table = s: seq<PollFd> | |s| == NUMBER_OF_SOCKETS witness seq(NUMBER_OF_SOCKETS, _ => EMPTY_SLOT)

  /** The server and the operating system around it. */
  datatype Server = Server(slots: Table, buffer: seq<uint8>, listener: int, kernel: KernelState)

  /** What the environment answers if a slot is visited in a scan. */
  datatype SlotAnswer = SlotAnswer(pending: Pending, incoming: Incoming, outcome: Outcome, sendFails: bool)

  const NO_ANSWER := SlotAnswer(AcceptFails, RecvFails, Outcome(OpenFails, 0), false)

  type Reports = s: seq<int> | |s| == NUMBER_OF_SOCKETS witness seq(NUMBER_OF_SOCKETS, _ => 0)
  type Answers = s: seq<SlotAnswer> | |s| == NUMBER_OF_SOCKETS witness seq(NUMBER_OF_SOCKETS, _ => NO_ANSWER)

  function NoReports(): Reports { seq(NUMBER_OF_SOCKETS, _ => 0) }

  /** One turn of the loop: how poll ends, or a termination signal instead of it. */
  datatype Round = PollFails | Signal | TimedOut | Ready(reported: Reports, answers: Answers)

  // The steps as functions of the state before them

  function AfterSetup(s: Server, wish: int): Server {
    var (k, fd) := AfterSocket(s.kernel, wish);
    var slots: Table := seq(NUMBER_OF_SOCKETS, i requires 0 <= i < NUMBER_OF_SOCKETS =>
      if i == 0 then s.slots[0].(fd := fd, events := POLLIN) else s.slots[i].(fd := -1));
    Server(slots, s.buffer, fd, k)
  }

  /** Client slots are re-armed before every poll. */
  function Armed(s: Server): Server {
    s.(slots := seq(NUMBER_OF_SOCKETS, i requires 0 <= i < NUMBER_OF_SOCKETS =>
      if i == 0 then s.slots[0] else s.slots[i].(events := POLLIN, revents := 0)))
  }

  /** poll ignores negative descriptors, and reports readiness to read only where it was asked for. */
  function Noticed(slot: PollFd, reported: int): int {
    if slot.fd < 0 || (reported == POLLIN && slot.events != POLLIN) then 0 else reported
  }

  function Polled(s: Server, reported: Reports): Server {
    s.(slots := seq(NUMBER_OF_SOCKETS, i requires 0 <= i < NUMBER_OF_SOCKETS =>
      s.slots[i].(revents := Noticed(s.slots[i], reported[i]))))
  }

  function WithFd(s: Server, i: nat, fd: int): Server
    requires i < NUMBER_OF_SOCKETS
  {
    s.(slots := s.slots[i := s.slots[i].(fd := fd)])
  }

  function SlotClosed(s: Server, i: nat): Server
    requires i < NUMBER_OF_SOCKETS
  {
    WithFd(s, i, -1).(kernel := AfterClose(s.kernel, s.slots[i].fd))
  }

  function FirstFree(slots: Table, i: nat): (j: nat)
    requires i <= NUMBER_OF_SOCKETS
    ensures i <= j <= NUMBER_OF_SOCKETS
    ensures j < NUMBER_OF_SOCKETS ==> slots[j].fd == -1
    ensures forall n :: i <= n < j ==> slots[n].fd != -1
    decreases NUMBER_OF_SOCKETS - i
  {
    if i == NUMBER_OF_SOCKETS || slots[i].fd == -1 then i else FirstFree(slots, i + 1)
  }

  /** A pending connection goes to the first free client slot; with none free it is left pending. */
  function ConnectionAccepted(s: Server, pending: Pending): Server {
    var j := FirstFree(s.slots, 1);
    if j == NUMBER_OF_SOCKETS then s
    else
      var (k, fd) := AfterAccept(s.kernel, s.listener, pending);
      WithFd(s, j, fd).(kernel := k)
  }

  function MessageServed(s: Server, i: nat, a: SlotAnswer): Server
    requires i < NUMBER_OF_SOCKETS
  {
    var room := Resized(s.buffer, MAX_MESSAGE_SIZE_IN_BYTES);
    var (k, got) := AfterReceive(s.kernel, s.slots[i].fd, MAX_MESSAGE_SIZE_IN_BYTES, a.incoming, a.outcome);
    if got == None || got.value == [] then SlotClosed(s.(buffer := room, kernel := k), i)
    else
      var handled := Handle(got.value, a.outcome);
      var t := s.(buffer := got.value, kernel := Handling(k, handled.call, a.outcome.reply));
      if handled.response == [] then SlotClosed(t, i)
      else t.(kernel := AfterSend(t.kernel, t.slots[i].fd, handled.response, a.sendFails))
  }

  /** Events are compared for equality: a combination of bits is no event. */
  function EventHandled(s: Server, i: nat, a: SlotAnswer): Server
    requires i < NUMBER_OF_SOCKETS
  {
    var slot := s.slots[i];
    if slot.fd == s.listener && slot.revents == POLLIN then ConnectionAccepted(s, a.pending)
    else if slot.revents == POLLIN then MessageServed(s, i, a)
    else if slot.revents == POLLHUP || slot.revents == POLLERR then SlotClosed(s, i)
    else s
  }

  function SlotVisited(s: Server, i: nat, a: SlotAnswer): Server
    requires i < NUMBER_OF_SOCKETS
  {
    if s.slots[i].fd != -1 then EventHandled(s, i, a) else s
  }

  function ScannedFrom(s: Server, i: nat, answers: Answers): Server
    requires i <= NUMBER_OF_SOCKETS
    decreases NUMBER_OF_SOCKETS - i
  {
    if i == NUMBER_OF_SOCKETS then s else ScannedFrom(SlotVisited(s, i, answers[i]), i + 1, answers)
  }

  function DroppedFrom(s: Server, i: nat): Server
    requires i <= NUMBER_OF_SOCKETS
    decreases NUMBER_OF_SOCKETS - i
  {
    if i == NUMBER_OF_SOCKETS then s else DroppedFrom(if s.slots[i].fd != -1 then SlotClosed(s, i) else s, i + 1)
  }

  /** closeSockets closes descriptors without clearing the table. */
  function ClosedFrom(s: Server, i: nat): Server
    requires i <= NUMBER_OF_SOCKETS
    decreases NUMBER_OF_SOCKETS - i
  {
    if i == NUMBER_OF_SOCKETS then s.(kernel := AfterClose(s.kernel, s.listener))
    else ClosedFrom(if s.slots[i].fd != -1 then s.(kernel := AfterClose(s.kernel, s.slots[i].fd)) else s, i + 1)
  }

  function AfterRound(s: Server, round: Round): Server {
    match round
    case PollFails => Armed(s)
    case Signal => ClosedFrom(s, 1)
    case TimedOut => DroppedFrom(Polled(Armed(s), NoReports()), 1)
    case Ready(reported, answers) => ScannedFrom(Polled(Armed(s), reported), 0, answers)
  }

  /** A failing poll and a signal end the process; what the environment would do after that is ignored. */
  function AfterRun(s: Server, script: seq<Round>): Server
    decreases |script|
  {
    if script == [] then s
    else if script[0].PollFails? || script[0].Signal? then AfterRound(s, script[0])
    else AfterRun(AfterRound(s, script[0]), script[1..])
  }

  // Steps keep the kernel sane

  lemma CloseStaysSane(k: KernelState, fd: int)
    requires Sane(k)
    ensures Sane(AfterClose(k, fd))
  {
  }

  lemma ReceivedFillsBuffer(before: seq<uint8>, message: seq<uint8>)
    requires |message| <= |before|
    ensures Resized(Overwritten(before, message), |message|) == message
  {
  }

  class TcpServer {
    const sockets: array<PollFd>
    const messageBuffer: ByteVector
    var serverSocketFd: int
    const kernel: Kernel

    ghost predicate Valid()
      reads this, kernel
    {
      sockets.Length == NUMBER_OF_SOCKETS && Sane(kernel.state)
    }

    function Value(): Server
      requires sockets.Length == NUMBER_OF_SOCKETS
      reads this, sockets, messageBuffer, kernel
    {
      Server(sockets[..], messageBuffer.bytes, serverSocketFd, kernel.state)
    }

    constructor (kernel: Kernel)
      requires Sane(kernel.state)
      ensures Valid() && this.kernel == kernel && fresh(sockets) && fresh(messageBuffer)
      ensures messageBuffer.bytes == Zeros(MAX_MESSAGE_SIZE_IN_BYTES) && serverSocketFd == -1
      ensures forall i :: 0 <= i < NUMBER_OF_SOCKETS ==> sockets[i] == PollFd(0, 0, 0)
    {
      sockets := new PollFd[NUMBER_OF_SOCKETS](_ => PollFd(0, 0, 0));
      messageBuffer := new ByteVector(Zeros(MAX_MESSAGE_SIZE_IN_BYTES));
      serverSocketFd := -1;
      this.kernel := kernel;
    }

    /** setup, on its successful path. */
    method Setup(wish: int)
      requires Valid()
      modifies this, sockets, kernel
      ensures Valid()
      ensures Value() == AfterSetup(old(Value()), wish)
    {
      serverSocketFd := kernel.Socket(wish);
      sockets[0] := sockets[0].(fd := serverSocketFd);
      sockets[0] := sockets[0].(events := POLLIN);
      for i := 1 to NUMBER_OF_SOCKETS
        modifies sockets
        invariant sockets[0] == old(sockets[0]).(fd := serverSocketFd, events := POLLIN)
        invariant forall j :: 1 <= j < i ==> sockets[j] == old(sockets[j]).(fd := -1)
        invariant forall j :: i <= j < NUMBER_OF_SOCKETS ==> sockets[j] == old(sockets[j])
      {
        sockets[i] := sockets[i].(fd := -1);
      }
      assert sockets[..] == AfterSetup(old(Value()), wish).slots;
    }

    /** run, for as many turns of its endless loop as the script has. */
    method Run(script: seq<Round>)
      requires Valid()
      modifies sockets, messageBuffer, kernel
      ensures Valid()
      ensures Value() == AfterRun(old(Value()), script)
    {
      hide ScannedFrom, DroppedFrom, ClosedFrom, Armed, Polled;
      var n := 0;
      while n < |script|
        invariant 0 <= n <= |script|
        invariant Valid()
        invariant AfterRun(Value(), script[n..]) == AfterRun(old(Value()), script)
      {
        var round := script[n];
        assert script[n..][1..] == script[n + 1..];
        if round.Signal? {
          CloseSockets();
          return;
        }
        Arm();
        if round.PollFails? {
          return;
        }
        if round.TimedOut? {
          Poll(NoReports());
          DropUnusedConnections();
        } else {
          Poll(round.reported);
          Scan(round.answers);
        }
        n := n + 1;
      }
    }

    method Arm()
      requires Valid()
      modifies sockets
      ensures Valid()
      ensures Value() == Armed(old(Value()))
    {
      for i := 1 to NUMBER_OF_SOCKETS
        invariant sockets[0] == old(sockets[0])
        invariant forall j :: 1 <= j < i ==> sockets[j] == old(sockets[j]).(events := POLLIN, revents := 0)
        invariant forall j :: i <= j < NUMBER_OF_SOCKETS ==> sockets[j] == old(sockets[j])
      {
        sockets[i] := sockets[i].(events := POLLIN);
        sockets[i] := sockets[i].(revents := 0);
      }
      assert sockets[..] == Armed(old(Value())).slots;
    }

    /** The kernel fills in the reported events. */
    method Poll(reported: Reports)
      requires Valid()
      modifies sockets
      ensures Valid()
      ensures Value() == Polled(old(Value()), reported)
    {
      for i := 0 to NUMBER_OF_SOCKETS
        invariant forall j :: 0 <= j < i ==>
                    sockets[j] == old(sockets[j]).(revents := Noticed(old(sockets[j]), reported[j]))
        invariant forall j :: i <= j < NUMBER_OF_SOCKETS ==> sockets[j] == old(sockets[j])
      {
        sockets[i] := sockets[i].(revents := Noticed(sockets[i], reported[i]));
      }
      assert sockets[..] == Polled(old(Value()), reported).slots;
    }

    method Scan(answers: Answers)
      requires Valid()
      modifies sockets, messageBuffer, kernel
      ensures Valid()
      ensures Value() == ScannedFrom(old(Value()), 0, answers)
    {
      for i := 0 to NUMBER_OF_SOCKETS
        invariant Valid()
        invariant ScannedFrom(Value(), i, answers) == ScannedFrom(old(Value()), 0, answers)
      {
        if sockets[i].fd != -1 {
          HandleEventIfAny(i, answers[i]);
        }
      }
    }

    method CloseSockets()
      requires Valid()
      modifies kernel
      ensures Valid()
      ensures Value() == ClosedFrom(old(Value()), 1)
    {
      hide AfterClose, Sane;
      for i := 1 to NUMBER_OF_SOCKETS
        invariant Valid()
        invariant ClosedFrom(Value(), i) == ClosedFrom(old(Value()), 1)
      {
        if sockets[i].fd != -1 {
          CloseStaysSane(kernel.state, sockets[i].fd);
          kernel.Close(sockets[i].fd);
        }
      }
      CloseStaysSane(kernel.state, serverSocketFd);
      kernel.Close(serverSocketFd);
    }

    method DropUnusedConnections()
      requires Valid()
      modifies sockets, kernel
      ensures Valid()
      ensures Value() == DroppedFrom(old(Value()), 1)
    {
      hide AfterClose, Sane;
      for i := 1 to NUMBER_OF_SOCKETS
        invariant Valid()
        invariant DroppedFrom(Value(), i) == DroppedFrom(old(Value()), 1)
      {
        if sockets[i].fd != -1 {
          CloseConnectionAndEnableForReuse(i);
        }
      }
    }

    /** The slot is passed by reference: its index stands for it. */
    method HandleEventIfAny(i: nat, a: SlotAnswer)
      requires Valid() && i < NUMBER_OF_SOCKETS
      modifies sockets, messageBuffer, kernel
      ensures Valid()
      ensures Value() == EventHandled(old(Value()), i, a)
    {
      hide Handle;
      if sockets[i].fd == serverSocketFd && sockets[i].revents == POLLIN {
        AcceptConnection(a.pending);
      } else if sockets[i].revents == POLLIN {
        messageBuffer.Resize(MAX_MESSAGE_SIZE_IN_BYTES);
        ghost var room := messageBuffer.bytes;
        var messageSize := kernel.Receive(sockets[i].fd, messageBuffer, a.incoming, a.outcome);
        if messageSize == -1 {
          CloseConnectionAndEnableForReuse(i);
        } else if messageSize == 0 {
          assert messageBuffer.bytes == room;
          CloseConnectionAndEnableForReuse(i);
        } else {
          ReceivedFillsBuffer(room, Delivered(a.incoming.bytes, MAX_MESSAGE_SIZE_IN_BYTES));
          messageBuffer.Resize(messageSize);
          var responseBuffer := new ByteVector([]);
          var handled := HandleIncomingMessage(kernel, messageBuffer.bytes, responseBuffer, a.outcome);
          if |responseBuffer.bytes| > 0 {
            kernel.Send(sockets[i].fd, responseBuffer.bytes, a.sendFails);
          } else {
            CloseConnectionAndEnableForReuse(i);
          }
        }
      } else if sockets[i].revents == POLLHUP || sockets[i].revents == POLLERR {
        CloseConnectionAndEnableForReuse(i);
      }
    }

    method AcceptConnection(pending: Pending)
      requires Valid()
      modifies sockets, kernel
      ensures Valid()
      ensures Value() == ConnectionAccepted(old(Value()), pending)
    {
      var i := 1;
      while i < NUMBER_OF_SOCKETS
        invariant 1 <= i <= NUMBER_OF_SOCKETS
        invariant Valid() && Value() == old(Value())
        invariant FirstFree(sockets[..], i) == FirstFree(sockets[..], 1)
      {
        if sockets[i].fd == -1 {
          var fd := kernel.Accept(serverSocketFd, pending);
          sockets[i] := sockets[i].(fd := fd);
          return;
        }
        i := i + 1;
      }
    }

    method CloseConnectionAndEnableForReuse(i: nat)
      requires Valid() && i < NUMBER_OF_SOCKETS
      modifies sockets, kernel
      ensures Valid()
      ensures Value() == SlotClosed(old(Value()), i)
    {
      CloseStaysSane(kernel.state, sockets[i].fd);
      kernel.Close(sockets[i].fd);
      sockets[i] := sockets[i].(fd := -1);
    }
  }
}
