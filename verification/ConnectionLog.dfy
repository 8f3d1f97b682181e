/**
 What one connection, and the driver, should see of a log: a reference automaton that
 knows nothing of tables, slots or descriptors.
 */
module ConnectionLog {
  import opened Bits
  import opened Kernels
  import opened MessageHandler

  /**
   The life of a connection. It owes exactly the handler's response to a message it
   received; an empty one can only be paid by closing.
   */
  datatype Phase = Unborn | Idle | Owes(response: seq<uint8>) | Gone | Broken

  const RECEIVE_LIMIT := 10000

  function Next(phase: Phase, a: Action, c: int): Phase {
    match a
    case Accepted(d) => if d != c then phase else if phase == Unborn then Idle else Broken
    case Received(d, message, outcome) =>
      if d != c then phase
      else if phase == Idle && 1 <= |message| <= RECEIVE_LIMIT then Owes(Handle(message, outcome).response)
      else Broken
    case Sent(d, response, _) =>
      if d != c then phase else if phase == Owes(response) && response != [] then Idle else Broken
    case Closed(d) =>
      if d != c then phase else if phase == Idle || phase == Owes([]) then Gone else Broken
    case _ => phase
  }

  function PhaseOf(log: seq<Action>, c: int): Phase {
    if log == [] then Unborn else Next(PhaseOf(log[..|log| - 1], c), log[|log| - 1], c)
  }

  function Advanced(phase: Phase, tail: seq<Action>, c: int): Phase
    decreases |tail|
  {
    if tail == [] then phase else Advanced(Next(phase, tail[0], c), tail[1..], c)
  }

  lemma {:induction false} PhaseConcat(log: seq<Action>, tail: seq<Action>, c: int)
    ensures PhaseOf(log + tail, c) == Advanced(PhaseOf(log, c), tail, c)
    decreases |tail|
  {
    if tail == [] {
      assert log + tail == log;
    } else {
      var more := log + [tail[0]];
      assert more[..|log|] == log;
      assert log + tail == more + tail[1..];
      PhaseConcat(more, tail[1..], c);
    }
  }

  /** A message and what the environment answered while it was handled. */
  datatype Turn = Turn(message: seq<uint8>, outcome: Outcome)

  function ResponseOf(t: Turn): seq<uint8> { Handle(t.message, t.outcome).response }

  function TurnsOn(log: seq<Action>, c: int): seq<Turn> {
    if log == [] then []
    else
      var a := log[|log| - 1];
      TurnsOn(log[..|log| - 1], c) + if a.Received? && a.conn == c then [Turn(a.message, a.outcome)] else []
  }

  function SentOn(log: seq<Action>, c: int): seq<seq<uint8>> {
    if log == [] then []
    else
      var a := log[|log| - 1];
      SentOn(log[..|log| - 1], c) + if a.Sent? && a.conn == c then [a.response] else []
  }

  /** The handler mapped over the turns, empty responses left out. */
  function Replies(turns: seq<Turn>): seq<seq<uint8>> {
    if turns == [] then []
    else
      var r := ResponseOf(turns[|turns| - 1]);
      Replies(turns[..|turns| - 1]) + if r == [] then [] else [r]
  }

  ghost predicate AllAnswered(turns: seq<Turn>) { forall i :: 0 <= i < |turns| ==> ResponseOf(turns[i]) != [] }

  /** What a phase says about the turns and the sends so far. */
  ghost predicate Explains(phase: Phase, turns: seq<Turn>, sent: seq<seq<uint8>>) {
    match phase
    case Unborn => turns == [] && sent == []
    case Idle => AllAnswered(turns) && sent == Replies(turns)
    case Owes(response) =>
      && turns != [] && ResponseOf(turns[|turns| - 1]) == response
      && AllAnswered(turns[..|turns| - 1]) && sent == Replies(turns[..|turns| - 1])
    case Gone =>
      && (turns != [] ==> AllAnswered(turns[..|turns| - 1]))
      && sent == Replies(turns)
    case Broken => true
  }

  /** The automaton's phases mean what they should, for every log. */
  lemma {:induction false} PhaseExplains(log: seq<Action>, c: int)
    ensures Explains(PhaseOf(log, c), TurnsOn(log, c), SentOn(log, c))
  {
    if log != [] {
      var front, a := log[..|log| - 1], log[|log| - 1];
      PhaseExplains(front, c);
      ExplainedStep(PhaseOf(front, c), a, c, TurnsOn(front, c), SentOn(front, c));
    }
  }

  lemma ExplainedStep(phase: Phase, a: Action, c: int, turns: seq<Turn>, sent: seq<seq<uint8>>)
    requires Explains(phase, turns, sent)
    ensures var turned := turns + if a.Received? && a.conn == c then [Turn(a.message, a.outcome)] else [];
            var replied := sent + if a.Sent? && a.conn == c then [a.response] else [];
            Explains(Next(phase, a, c), turned, replied)
  {
    hide Handle;
    assert turns + [] == turns && sent + [] == sent;
    if a.Received? && a.conn == c {
      if phase == Idle {
        Owing(turns, sent, Turn(a.message, a.outcome));
      }
    } else if a.Sent? && a.conn == c {
      if phase == Owes(a.response) && a.response != [] {
        Paid(turns, sent, a.response);
      }
    } else if a.Closed? && a.conn == c && (phase == Idle || phase == Owes([])) {
      Ended(phase, turns, sent);
    }
  }

  lemma Owing(turns: seq<Turn>, sent: seq<seq<uint8>>, turn: Turn)
    requires Explains(Idle, turns, sent)
    ensures Explains(Owes(ResponseOf(turn)), turns + [turn], sent)
  {
    hide ResponseOf;
    assert (turns + [turn])[..|turns|] == turns;
  }

  lemma Paid(turns: seq<Turn>, sent: seq<seq<uint8>>, response: seq<uint8>)
    requires Explains(Owes(response), turns, sent) && response != []
    ensures Explains(Idle, turns, sent + [response])
  {
    hide ResponseOf;
    forall i | 0 <= i < |turns| ensures ResponseOf(turns[i]) != [] {
      assert i < |turns| - 1 ==> turns[..|turns| - 1][i] == turns[i];
    }
  }

  lemma Ended(phase: Phase, turns: seq<Turn>, sent: seq<seq<uint8>>)
    requires Explains(phase, turns, sent) && (phase == Idle || phase == Owes([]))
    ensures Explains(Gone, turns, sent)
  {
    hide ResponseOf;
    if phase == Owes([]) {
      assert Replies(turns[..|turns| - 1]) + [] == Replies(turns[..|turns| - 1]);
    }
  }

  // The driver's side of the log

  function DeviceEntries(log: seq<Action>): seq<Action> {
    if log == [] then []
    else
      var a := log[|log| - 1];
      DeviceEntries(log[..|log| - 1]) + if a.DeviceOpened? || a.Ioctl? then [a] else []
  }

  /** What every received message, accepted connection or not, should have the driver see, in order. */
  function ExpectedEntries(log: seq<Action>): seq<Action> {
    if log == [] then []
    else
      var a := log[|log| - 1];
      ExpectedEntries(log[..|log| - 1])
      + if a.Received? then HandlingLog(Handle(a.message, a.outcome).call, a.outcome.reply) else []
  }

  lemma {:induction false} DeviceEntriesConcat(log: seq<Action>, tail: seq<Action>)
    ensures DeviceEntries(log + tail) == DeviceEntries(log) + DeviceEntries(tail)
    decreases |tail|
  {
    if tail == [] {
      assert log + tail == log;
    } else {
      var front := tail[..|tail| - 1];
      DeviceEntriesConcat(log, front);
      assert (log + tail)[..|log + tail| - 1] == log + front;
    }
  }

  lemma {:induction false} ExpectedEntriesConcat(log: seq<Action>, tail: seq<Action>)
    ensures ExpectedEntries(log + tail) == ExpectedEntries(log) + ExpectedEntries(tail)
    decreases |tail|
  {
    hide Handle, HandlingLog;
    if tail == [] {
      assert log + tail == log;
    } else {
      var front := tail[..|tail| - 1];
      ExpectedEntriesConcat(log, front);
      assert (log + tail)[..|log + tail| - 1] == log + front;
    }
  }

  ghost predicate NoBadDescriptor(log: seq<Action>) { forall i :: 0 <= i < |log| ==> !log[i].BadDescriptor? }
}
