/**
 What every step of the poll loop keeps, and what a scan does, slot by slot, in terms of
 the table that poll reported on.
 */
module ScanSteps {
  import opened Utils
  import opened Kernels
  import opened FcsCommunication
  import opened MessageHandler
  import opened TcpServers
  import opened ConnectionLog

  /** The slot is in use and its descriptor is open. */
  ghost predicate SlotsOpen(s: Server) {
    && (forall i :: 0 <= i < NUMBER_OF_SOCKETS && s.slots[i].fd != -1 ==> s.slots[i].fd in s.kernel.open)
    && (forall fd :: fd in s.kernel.open ==> exists i :: 0 <= i < NUMBER_OF_SOCKETS && s.slots[i].fd == fd && fd != -1)
  }

  ghost predicate SlotsDistinct(s: Server) {
    forall i, j :: 0 <= i < j < NUMBER_OF_SOCKETS && s.slots[i].fd != -1 ==> s.slots[i].fd != s.slots[j].fd
  }

  /** Slot 0 is the listener's and no other's; connections are known by exactly the client slots. */
  ghost predicate SlotsConnected(s: Server) {
    && s.listener >= 0 && (s.slots[0].fd == -1 || s.slots[0].fd == s.listener)
    && s.listener !in s.kernel.conn
    && (forall i :: 1 <= i < NUMBER_OF_SOCKETS && s.slots[i].fd != -1 ==>
          s.slots[i].fd >= 0 && s.slots[i].fd != s.listener && s.slots[i].fd in s.kernel.conn)
    && (forall fd :: fd in s.kernel.conn ==> fd in s.kernel.open)
  }

  /** Every connection has one descriptor, and its id was given out. */
  ghost predicate ConnectionsDistinct(k: KernelState) {
    && k.next >= 0
    && (forall fd :: fd in k.conn ==> 0 <= k.conn[fd] < k.next)
    && (forall a, b :: a in k.conn && b in k.conn && a != b ==> k.conn[a] != k.conn[b])
  }

  /** What holds of the table and the descriptors between any two steps. */
  ghost predicate TableInv(s: Server) {
    SlotsOpen(s) && SlotsDistinct(s) && SlotsConnected(s) && ConnectionsDistinct(s.kernel)
  }

  ghost predicate LiveConnection(k: KernelState, c: int) { exists fd :: fd in k.conn && k.conn[fd] == c }

  /** Which phase of its life each connection is in, between any two steps. */
  ghost function PhaseNow(k: KernelState, c: int): Phase {
    if c < 0 || c >= k.next then Unborn else if LiveConnection(k, c) then Idle else Gone
  }

  ghost predicate LogInv(k: KernelState) {
    && (forall c: int :: PhaseOf(k.log, c) == PhaseNow(k, c))
    && DeviceEntries(k.log) == ExpectedEntries(k.log)
    && NoBadDescriptor(k.log)
  }

  /** The invariant of the loop. */
  ghost predicate Inv(s: Server) { TableInv(s) && LogInv(s.kernel) }

  // One visit to a client slot

  /** What serving a connection logs, from the answers of the environment alone. */
  function ServeBlock(c: int, a: SlotAnswer): seq<Action> {
    if a.incoming.RecvFails? || Delivered(a.incoming.bytes, MAX_MESSAGE_SIZE_IN_BYTES) == [] then [Closed(c)]
    else
      var message := Delivered(a.incoming.bytes, MAX_MESSAGE_SIZE_IN_BYTES);
      var handled := Handle(message, a.outcome);
      [Received(c, message, a.outcome)]
      + HandlingLog(handled.call, a.outcome.reply)
      + [if handled.response == [] then Closed(c) else Sent(c, handled.response, a.sendFails)]
  }

  function VisitBlock(c: int, revents: int, a: SlotAnswer): seq<Action> {
    if revents == POLLIN then ServeBlock(c, a)
    else if revents == POLLHUP || revents == POLLERR then [Closed(c)]
    else []
  }

  predicate Closes(block: seq<Action>) { block != [] && block[|block| - 1].Closed? }

  /** The state after a visit that logged a block: the slot and its descriptor go with a close, nothing else moves. */
  ghost predicate VisitedWith(s: Server, t: Server, i: nat, block: seq<Action>)
    requires i < NUMBER_OF_SOCKETS
  {
    var fd := s.slots[i].fd;
    && t.listener == s.listener && t.kernel.next == s.kernel.next
    && t.kernel.log == s.kernel.log + block
    && (!Closes(block) ==> t.slots == s.slots && t.kernel.open == s.kernel.open && t.kernel.conn == s.kernel.conn)
    && (Closes(block) ==>
         && t.slots == s.slots[i := s.slots[i].(fd := -1)]
         && t.kernel.open == s.kernel.open - {fd} && t.kernel.conn == s.kernel.conn - {fd})
  }

  lemma ClientClosed(s: Server, i: nat, before: Server, block: seq<Action>, c: int)
    requires i < NUMBER_OF_SOCKETS
    requires s.slots == before.slots && s.listener == before.listener
    requires s.kernel == before.kernel.(log := before.kernel.log + block)
    requires s.slots[i].fd in s.kernel.conn && s.kernel.conn[s.slots[i].fd] == c && s.slots[i].fd in s.kernel.open
    ensures VisitedWith(before, SlotClosed(s, i), i, block + [Closed(c)])
  {
    assert before.kernel.log + block + [Closed(c)] == before.kernel.log + (block + [Closed(c)]);
  }

  lemma ServedBlock(s: Server, i: nat, a: SlotAnswer)
    requires i < NUMBER_OF_SOCKETS
    requires s.slots[i].fd in s.kernel.conn && s.slots[i].fd in s.kernel.open
    ensures VisitedWith(s, MessageServed(s, i, a), i, ServeBlock(s.kernel.conn[s.slots[i].fd], a))
  {
    var fd := s.slots[i].fd;
    var c := s.kernel.conn[fd];
    var room := Resized(s.buffer, MAX_MESSAGE_SIZE_IN_BYTES);
    var (k, got) := AfterReceive(s.kernel, fd, MAX_MESSAGE_SIZE_IN_BYTES, a.incoming, a.outcome);
    if got == None || got.value == [] {
      assert s.kernel.log + [] == s.kernel.log;
      assert [] + [Closed(c)] == [Closed(c)];
      ClientClosed(s.(buffer := room, kernel := k), i, s, [], c);
    } else {
      var handled := Handle(got.value, a.outcome);
      var block := [Received(c, got.value, a.outcome)] + HandlingLog(handled.call, a.outcome.reply);
      var t := s.(buffer := got.value, kernel := Handling(k, handled.call, a.outcome.reply));
      assert t.kernel.log == s.kernel.log + block;
      if handled.response == [] {
        ClientClosed(t, i, s, block, c);
      } else {
        var sent := Sent(c, handled.response, a.sendFails);
        assert s.kernel.log + block + [sent] == s.kernel.log + (block + [sent]);
      }
    }
  }

  /** A visit to a client slot in use does what was reported for it, to the connection behind it. */
  lemma ClientVisited(s: Server, i: nat, a: SlotAnswer)
    requires TableInv(s) && 1 <= i < NUMBER_OF_SOCKETS && s.slots[i].fd != -1
    ensures s.slots[i].fd in s.kernel.conn
    ensures VisitedWith(s, SlotVisited(s, i, a), i, VisitBlock(s.kernel.conn[s.slots[i].fd], s.slots[i].revents, a))
  {
    var slot := s.slots[i];
    var c := s.kernel.conn[slot.fd];
    if slot.revents == POLLIN {
      ServedBlock(s, i, a);
    } else if slot.revents == POLLHUP || slot.revents == POLLERR {
      assert s.kernel.log + [] == s.kernel.log;
      assert [] + [Closed(c)] == [Closed(c)];
      ClientClosed(s, i, s, [], c);
    } else {
      assert s.kernel.log + [] == s.kernel.log;
    }
  }

  // Steps keep the table invariant

  lemma TableAfterRemoval(s: Server, t: Server, i: nat)
    requires TableInv(s) && i < NUMBER_OF_SOCKETS && s.slots[i].fd != -1
    requires t.listener == s.listener && t.kernel.next == s.kernel.next
    requires t.slots == s.slots[i := s.slots[i].(fd := -1)]
    requires t.kernel.open == s.kernel.open - {s.slots[i].fd} && t.kernel.conn == s.kernel.conn - {s.slots[i].fd}
    ensures TableInv(t)
  {
    var gone := s.slots[i].fd;
    forall j | 0 <= j < NUMBER_OF_SOCKETS && t.slots[j].fd != -1 ensures t.slots[j].fd == s.slots[j].fd != gone {}
    forall fd | fd in t.kernel.open ensures exists j :: 0 <= j < NUMBER_OF_SOCKETS && t.slots[j].fd == fd && fd != -1 {
      var j :| 0 <= j < NUMBER_OF_SOCKETS && s.slots[j].fd == fd && fd != -1;
      assert t.slots[j].fd == fd;
    }
  }

  lemma TableUnmoved(s: Server, t: Server)
    requires TableInv(s)
    requires t.listener == s.listener && t.kernel.next == s.kernel.next
    requires forall i :: 0 <= i < NUMBER_OF_SOCKETS ==> t.slots[i].fd == s.slots[i].fd
    requires t.kernel.open == s.kernel.open && t.kernel.conn == s.kernel.conn
    ensures TableInv(t)
  {
    forall fd | fd in t.kernel.open ensures exists j :: 0 <= j < NUMBER_OF_SOCKETS && t.slots[j].fd == fd && fd != -1 {
      var j :| 0 <= j < NUMBER_OF_SOCKETS && s.slots[j].fd == fd && fd != -1;
      assert t.slots[j].fd == fd;
    }
  }

  lemma TableAfterAddition(s: Server, t: Server, j: nat, fd: int)
    requires TableInv(s) && 1 <= j < NUMBER_OF_SOCKETS && s.slots[j].fd == -1
    requires fd >= 0 && fd !in s.kernel.open && fd != s.listener
    requires t.listener == s.listener && t.kernel.next == s.kernel.next + 1
    requires t.slots == s.slots[j := s.slots[j].(fd := fd)]
    requires t.kernel.open == s.kernel.open + {fd} && t.kernel.conn == s.kernel.conn[fd := s.kernel.next]
    ensures TableInv(t)
  {
    hide ConnectionsDistinct, SlotsOpen;
    OpenAfterAddition(s, t, j, fd);
    ConnectionsAfterAddition(s.kernel, t.kernel, fd);
  }

  lemma OpenAfterAddition(s: Server, t: Server, j: nat, fd: int)
    requires SlotsOpen(s) && 1 <= j < NUMBER_OF_SOCKETS && s.slots[j].fd == -1 && fd >= 0
    requires t.slots == s.slots[j := s.slots[j].(fd := fd)] && t.kernel.open == s.kernel.open + {fd}
    ensures SlotsOpen(t)
  {
    assert t.slots[j].fd == fd;
    forall f | f in t.kernel.open ensures exists n :: 0 <= n < NUMBER_OF_SOCKETS && t.slots[n].fd == f && f != -1 {
      if f != fd {
        var n :| 0 <= n < NUMBER_OF_SOCKETS && s.slots[n].fd == f && f != -1;
        assert t.slots[n].fd == f;
      }
    }
  }

  lemma ConnectionsAfterAddition(k: KernelState, l: KernelState, fd: int)
    requires ConnectionsDistinct(k) && fd !in k.conn
    requires l.next == k.next + 1 && l.conn == k.conn[fd := k.next]
    ensures ConnectionsDistinct(l)
  {
  }

  // Steps keep the log invariant

  lemma BlockPhases(c: int, revents: int, a: SlotAnswer, d: int, phase: Phase)
    requires d == c ==> phase == Idle
    ensures var block := VisitBlock(c, revents, a);
            Advanced(phase, block, d) == if d == c && Closes(block) then Gone else phase
  {
    hide Handle, Delivered;
    var block := VisitBlock(c, revents, a);
    if revents == POLLIN && !(a.incoming.RecvFails? || Delivered(a.incoming.bytes, MAX_MESSAGE_SIZE_IN_BYTES) == []) {
      ServedPhases(c, a, d, phase);
    } else if block != [] {
      assert block == [Closed(c)] && block[1..] == [];
    }
  }

  lemma ServedPhases(c: int, a: SlotAnswer, d: int, phase: Phase)
    requires d == c ==> phase == Idle
    requires a.incoming.Data? && Delivered(a.incoming.bytes, MAX_MESSAGE_SIZE_IN_BYTES) != []
    ensures Advanced(phase, ServeBlock(c, a), d) == if d == c && Closes(ServeBlock(c, a)) then Gone else phase
  {
    hide Handle;
    var message := Delivered(a.incoming.bytes, MAX_MESSAGE_SIZE_IN_BYTES);
    var handled := Handle(message, a.outcome);
    var middle := HandlingLog(handled.call, a.outcome.reply);
    var last := if handled.response == [] then Closed(c) else Sent(c, handled.response, a.sendFails);
    var block := ServeBlock(c, a);
    assert block == [Received(c, message, a.outcome)] + (middle + [last]);
    assert block[1..] == middle + [last];
    var owing := Next(phase, Received(c, message, a.outcome), d);
    QuietEntries(owing, middle, last, d);
    assert block[|block| - 1] == last;
  }

  /** Driver entries leave every phase alone. */
  lemma QuietEntries(phase: Phase, middle: seq<Action>, last: Action, d: int)
    requires forall i :: 0 <= i < |middle| ==> middle[i].DeviceOpened? || middle[i].Ioctl?
    ensures Advanced(phase, middle + [last], d) == Next(phase, last, d)
    decreases |middle|
  {
    if middle != [] {
      assert (middle + [last])[1..] == middle[1..] + [last];
      QuietEntries(phase, middle[1..], last, d);
    } else {
      assert (middle + [last])[1..] == [];
    }
  }

  /** In a visit's block the driver sees what its message calls for. */
  lemma BlockEntries(c: int, revents: int, a: SlotAnswer)
    ensures DeviceEntries(VisitBlock(c, revents, a)) == ExpectedEntries(VisitBlock(c, revents, a))
    ensures NoBadDescriptor(VisitBlock(c, revents, a))
  {
    hide Handle, HandlingLog, Delivered;
    var block := VisitBlock(c, revents, a);
    if block != [] && !(block == [Closed(c)]) {
      var message := Delivered(a.incoming.bytes, MAX_MESSAGE_SIZE_IN_BYTES);
      var handled := Handle(message, a.outcome);
      var last := if handled.response == [] then Closed(c) else Sent(c, handled.response, a.sendFails);
      ServedEntries(Received(c, message, a.outcome), last);
    } else if block != [] {
      assert block[..0] == [];
    }
  }

  lemma ServedEntries(first: Action, last: Action)
    requires first.Received? && (last.Closed? || last.Sent?)
    ensures var middle := HandlingLog(Handle(first.message, first.outcome).call, first.outcome.reply);
            var block := [first] + middle + [last];
            DeviceEntries(block) == middle == ExpectedEntries(block) && NoBadDescriptor(block)
  {
    hide Handle, HandlingLog;
    var middle := HandlingLog(Handle(first.message, first.outcome).call, first.outcome.reply);
    DeviceEntriesConcat([first] + middle, [last]);
    DeviceEntriesConcat([first], middle);
    ExpectedEntriesConcat([first] + middle, [last]);
    ExpectedEntriesConcat([first], middle);
    assert [first][..0] == [] && [last][..0] == [];
    HandlingEntries(Handle(first.message, first.outcome).call, first.outcome.reply);
  }

  lemma HandlingEntries(call: Option<DriverRequest>, reply: Reply)
    ensures DeviceEntries(HandlingLog(call, reply)) == HandlingLog(call, reply)
    ensures ExpectedEntries(HandlingLog(call, reply)) == []
    ensures NoBadDescriptor(HandlingLog(call, reply))
  {
    if call.Some? {
      SingleEntry(DeviceOpened(!reply.OpenFails?));
      if reply.Opens? {
        SingleEntry(Ioctl(call.value));
        DeviceEntriesConcat([DeviceOpened(true)], [Ioctl(call.value)]);
        ExpectedEntriesConcat([DeviceOpened(true)], [Ioctl(call.value)]);
        assert CallLog(call.value, reply) == [DeviceOpened(true)] + [Ioctl(call.value)];
      }
    }
  }

  lemma SingleEntry(a: Action)
    requires a.DeviceOpened? || a.Ioctl?
    ensures DeviceEntries([a]) == [a] && ExpectedEntries([a]) == []
  {
    assert [a][..0] == [];
  }

  lemma LogAfterBlock(k: KernelState, l: KernelState, block: seq<Action>)
    requires LogInv(k) && l.log == k.log + block
    requires forall d: int :: Advanced(PhaseNow(k, d), block, d) == PhaseNow(l, d)
    requires DeviceEntries(block) == ExpectedEntries(block) && NoBadDescriptor(block)
    ensures LogInv(l)
  {
    forall d: int ensures PhaseOf(l.log, d) == PhaseNow(l, d) {
      PhaseConcat(k.log, block, d);
    }
    DeviceEntriesConcat(k.log, block);
    ExpectedEntriesConcat(k.log, block);
  }

  lemma VisitKeepsInv(s: Server, t: Server, i: nat, revents: int, a: SlotAnswer)
    requires Inv(s) && 1 <= i < NUMBER_OF_SOCKETS && s.slots[i].fd != -1 && s.slots[i].fd in s.kernel.conn
    requires VisitedWith(s, t, i, VisitBlock(s.kernel.conn[s.slots[i].fd], revents, a))
    ensures Inv(t)
  {
    var fd := s.slots[i].fd;
    var c := s.kernel.conn[fd];
    var block := VisitBlock(c, revents, a);
    if Closes(block) {
      TableAfterRemoval(s, t, i);
    } else {
      TableUnmoved(s, t);
    }
    forall d: int ensures Advanced(PhaseNow(s.kernel, d), block, d) == PhaseNow(t.kernel, d) {
      assert LiveConnection(s.kernel, c);
      BlockPhases(c, revents, a, d, PhaseNow(s.kernel, d));
      if Closes(block) {
        LiveAfterRemoval(s.kernel, t.kernel, fd, d);
      }
    }
    BlockEntries(c, revents, a);
    LogAfterBlock(s.kernel, t.kernel, block);
  }

  lemma ClientVisitKeepsInv(s: Server, i: nat, a: SlotAnswer)
    requires Inv(s) && 1 <= i < NUMBER_OF_SOCKETS && s.slots[i].fd != -1
    ensures Inv(SlotVisited(s, i, a))
  {
    ClientVisited(s, i, a);
    VisitKeepsInv(s, SlotVisited(s, i, a), i, s.slots[i].revents, a);
  }

  /** Dropping a client is like a hang-up reported for it. */
  lemma ClientDropKeepsInv(s: Server, i: nat)
    requires Inv(s) && 1 <= i < NUMBER_OF_SOCKETS && s.slots[i].fd != -1
    ensures Inv(SlotClosed(s, i)) && SlotClosed(s, i).kernel.next == s.kernel.next
  {
    var c := s.kernel.conn[s.slots[i].fd];
    assert s.kernel.log + [] == s.kernel.log && [] + [Closed(c)] == [Closed(c)];
    ClientClosed(s, i, s, [], c);
    VisitKeepsInv(s, SlotClosed(s, i), i, POLLHUP, NO_ANSWER);
  }

  lemma LiveAfterRemoval(k: KernelState, l: KernelState, fd: int, d: int)
    requires ConnectionsDistinct(k) && fd in k.conn && l.conn == k.conn - {fd}
    ensures LiveConnection(l, d) <==> LiveConnection(k, d) && d != k.conn[fd]
  {
    if LiveConnection(k, d) && d != k.conn[fd] {
      var f :| f in k.conn && k.conn[f] == d;
      assert f in l.conn && l.conn[f] == d;
    }
  }
}
