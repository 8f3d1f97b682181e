/**
 Rounds that are stopped half-way: a scan or a timeout after any number of slots.
 */
module PartialRounds {
  import opened Kernels
  import opened TcpServers
  import opened ScanSteps
  import opened ServerRuns

  /** A scan that has visited the slots from lo up to, but not including, hi. */
  function Scanned(s: Server, lo: nat, hi: nat, answers: Answers): Server
    requires lo <= hi <= NUMBER_OF_SOCKETS
  {
    if hi == lo then s else SlotVisited(Scanned(s, lo, hi - 1, answers), hi - 1, answers[hi - 1])
  }

  /** Going on from where a scan was stopped is the whole scan. */
  lemma {:induction false} ScanGoesOn(s: Server, lo: nat, hi: nat, answers: Answers)
    requires lo <= hi <= NUMBER_OF_SOCKETS
    ensures ScannedFrom(Scanned(s, lo, hi, answers), hi, answers) == ScannedFrom(s, lo, answers)
  {
    hide SlotVisited;
    if lo < hi {
      ScanGoesOn(s, lo, hi - 1, answers);
    }
  }

  lemma WholeScan(s: Server, answers: Answers)
    ensures Scanned(s, 0, NUMBER_OF_SOCKETS, answers) == ScannedFrom(s, 0, answers)
  {
    hide SlotVisited, Scanned;
    ScanGoesOn(s, 0, NUMBER_OF_SOCKETS, answers);
  }

  /** The invariant holds wherever a scan is stopped; the listener is lost in slot 0 or not at all. */
  lemma {:induction false} ScannedKeepsInv(p: Server, lo: nat, hi: nat, answers: Answers)
    requires lo <= hi <= NUMBER_OF_SOCKETS && Inv(p)
    ensures var t := Scanned(p, lo, hi, answers);
            && Inv(t) && t.listener == p.listener
            && t.slots[0].fd == if lo == 0 < hi && Lost(p.slots[0].revents) then -1 else p.slots[0].fd
  {
    hide Inv, SlotVisited;
    if lo < hi {
      ScannedKeepsInv(p, lo, hi - 1, answers);
      var t := Scanned(p, lo, hi - 1, answers);
      if hi == 1 {
        ListenerVisited(t, answers[0]);
      } else {
        ClientVisitKeepsFirst(t, hi - 1, answers[hi - 1]);
      }
    }
  }

  lemma ClientVisitKeepsFirst(s: Server, i: nat, a: SlotAnswer)
    requires Inv(s) && 1 <= i < NUMBER_OF_SOCKETS
    ensures Inv(SlotVisited(s, i, a))
    ensures SlotVisited(s, i, a).listener == s.listener && SlotVisited(s, i, a).slots[0] == s.slots[0]
  {
    hide MessageServed, ConnectionAccepted, VisitBlock;
    if s.slots[i].fd != -1 {
      ClientVisited(s, i, a);
      ClientVisitKeepsInv(s, i, a);
    }
  }

  /** A timeout that has dropped the client slots below hi. */
  function Dropped(s: Server, hi: nat): Server
    requires 1 <= hi <= NUMBER_OF_SOCKETS
  {
    if hi == 1 then s
    else
      var t := Dropped(s, hi - 1);
      if t.slots[hi - 1].fd != -1 then SlotClosed(t, hi - 1) else t
  }

  lemma {:induction false} DropGoesOn(s: Server, hi: nat)
    requires 1 <= hi <= NUMBER_OF_SOCKETS
    ensures DroppedFrom(Dropped(s, hi), hi) == DroppedFrom(s, 1)
  {
    hide SlotClosed;
    if hi > 1 {
      DropGoesOn(s, hi - 1);
    }
  }

  lemma WholeTimeout(s: Server)
    ensures Dropped(s, NUMBER_OF_SOCKETS) == DroppedFrom(s, 1)
  {
    hide SlotClosed, Dropped;
    DropGoesOn(s, NUMBER_OF_SOCKETS);
  }

  const HANG_UPS: Reports := seq(NUMBER_OF_SOCKETS, i => if i == 0 then 0 else POLLHUP)
  const NO_ANSWERS: Answers := seq(NUMBER_OF_SOCKETS, _ => NO_ANSWER)

  /** The same listener, descriptors and kernel. */
  ghost predicate SameHoldings(s: Server, t: Server) {
    && s.kernel == t.kernel && s.listener == t.listener
    && forall i :: 0 <= i < NUMBER_OF_SOCKETS ==> s.slots[i].fd == t.slots[i].fd
  }

  lemma PolledHoldings(s: Server, reported: Reports)
    ensures SameHoldings(s, Polled(Armed(s), reported))
  {
  }

  /** Slot by slot, a timeout does what a hang-up of every client would do. */
  lemma {:induction false} TimeoutIsHangUps(s: Server, hi: nat)
    requires Inv(s) && 1 <= hi <= NUMBER_OF_SOCKETS
    ensures var h := Scanned(Polled(Armed(s), HANG_UPS), 0, hi, NO_ANSWERS);
            && SameHoldings(Dropped(Polled(Armed(s), NoReports()), hi), h)
            && forall j :: hi <= j < NUMBER_OF_SOCKETS ==> h.slots[j] == Polled(Armed(s), HANG_UPS).slots[j]
  {
    hide LogInv, MessageServed, ConnectionAccepted, AfterClose;
    var p := Polled(Armed(s), HANG_UPS);
    if hi == 1 {
      assert Scanned(p, 0, 0, NO_ANSWERS) == p;
    } else {
      TimeoutIsHangUps(s, hi - 1);
      var h := Scanned(p, 0, hi - 1, NO_ANSWERS);
      assert h.slots[hi - 1] == p.slots[hi - 1];
    }
  }

  lemma TimeoutRound(s: Server)
    requires Inv(s)
    ensures SameHoldings(AfterRound(s, TimedOut), AfterRound(s, Ready(HANG_UPS, NO_ANSWERS)))
  {
    hide Inv, Polled, Armed, Scanned, Dropped, ScannedFrom, DroppedFrom, SameHoldings;
    TimeoutIsHangUps(s, NUMBER_OF_SOCKETS);
    WholeTimeout(Polled(Armed(s), NoReports()));
    WholeScan(Polled(Armed(s), HANG_UPS), NO_ANSWERS);
  }

  /** The invariant holds wherever a timeout is stopped, and the listener stays. */
  lemma DroppedKeepsInv(s: Server, hi: nat)
    requires Inv(s) && 1 <= hi <= NUMBER_OF_SOCKETS
    ensures var t := Dropped(Polled(Armed(s), NoReports()), hi);
            && Inv(t) && t.listener == s.listener && t.slots[0].fd == s.slots[0].fd
  {
    hide LogInv, Scanned, Dropped, Polled, Armed;
    PolledKeepsInv(s, HANG_UPS);
    ScannedKeepsInv(Polled(Armed(s), HANG_UPS), 0, hi, NO_ANSWERS);
    TimeoutIsHangUps(s, hi);
    TableUnmoved(Scanned(Polled(Armed(s), HANG_UPS), 0, hi, NO_ANSWERS), Dropped(Polled(Armed(s), NoReports()), hi));
  }
}
