/**
 The network side of the client: the text handshake performed when the
 client is constructed, the loop that reads server events and hands them to
 the game screen, and the loop that sends queued commands.

 The socket is replaced by a `Link`: the lines the server sends in reply,
 how many writes succeed before the connection fails, and the message of the
 I/O exception raised when one does. Reading past the last reply fails, as
 reading a closed stream does.
 */
module PokerClient {
  import opened Wrappers
  import opened Text
  import opened GameScreen

  const VERSION: string := "0.9.1"
  const GREETING: string := "Hello from PokerClient " + VERSION
  const SERVER_HELLO: string := "Hello from PokerServer"
  const JOIN_REQUEST: string := "Can I join?"
  const ACCEPT: string := "Yes"
  const REJECT: string := "No: "
  const HANDSHAKE_FAILED: string := "Handshake failed"

  datatype Link = Link(replies: seq<string>, writesAccepted: nat, ioMessage: string)

  /** Whatever the client writes to the connection. */
  datatype Wire =
    | Utf(text: string)             // a handshake line
    | NameMessage(name: string)     // the message event announcing our name
    | CommandObject(cmd: Command)   // a queued command

  datatype HandshakeResult = Joined | HandshakeFailure(message: string)

  /** The reason shown for a refused join. */
  function RejectionReason(reply: string): (r: string)
    ensures !StartsWith(reply, REJECT) ==> r == reply
    ensures StartsWith(reply, REJECT) ==> r == RemoveAll(reply, REJECT)
    ensures StartsWith(reply, REJECT) ==> |r| <= |reply| - |REJECT|
    ensures |r| <= |reply|
  {
    RemoveAllLength(reply, REJECT);
    if StartsWith(reply, REJECT) then
      RemoveAllShortens(reply, REJECT, 0);
      RemoveAll(reply, REJECT)
    else reply
  }

  function BadGreeting(reply: string): string {
    "Expected \"" + SERVER_HELLO + "\" but got \"" + reply + "\""
  }

  /**
   The handshake: the lines written, and whether the server let us join.
   Lines are written only while the link accepts writes; a failed write or
   a missing reply ends the exchange with "Handshake failed".
   */
  function Handshake(link: Link): (o: (seq<string>, HandshakeResult))
    ensures |o.0| <= 2 && o.0 == [GREETING, JOIN_REQUEST][..|o.0|]
    ensures |o.0| <= link.writesAccepted
    ensures o.0 == [] <==> link.writesAccepted == 0
    ensures o.1.Joined? ==> |o.0| == 2
    ensures |o.0| == 2 <==>
              link.writesAccepted >= 2 && |link.replies| >= 1 && StartsWith(link.replies[0], SERVER_HELLO)
  {
    if link.writesAccepted == 0 then ([], HandshakeFailure(HANDSHAKE_FAILED))
    else if |link.replies| == 0 then ([GREETING], HandshakeFailure(HANDSHAKE_FAILED))
    else if !StartsWith(link.replies[0], SERVER_HELLO) then ([GREETING], HandshakeFailure(BadGreeting(link.replies[0])))
    else if link.writesAccepted == 1 then ([GREETING], HandshakeFailure(HANDSHAKE_FAILED))
    else if |link.replies| == 1 then ([GREETING, JOIN_REQUEST], HandshakeFailure(HANDSHAKE_FAILED))
    else if StartsWith(link.replies[1], ACCEPT) then ([GREETING, JOIN_REQUEST], Joined)
    else ([GREETING, JOIN_REQUEST], HandshakeFailure("Connection rejected: " + RejectionReason(link.replies[1])))
  }

  /** The first line written is exactly the client greeting with its version. */
  lemma GreetingFirst(link: Link)
    requires link.writesAccepted > 0
    ensures Handshake(link).0[0] == "Hello from PokerClient 0.9.1"
  {
  }

  /** The handshake succeeds exactly when the server greets and says yes. */
  lemma HandshakeJoinsIff(link: Link)
    ensures Handshake(link).1.Joined? <==>
              && link.writesAccepted >= 2
              && |link.replies| >= 2
              && StartsWith(link.replies[0], SERVER_HELLO)
              && StartsWith(link.replies[1], ACCEPT)
  {
  }

  /** A wrong greeting fails before the join request is ever written. */
  lemma BadGreetingStops(link: Link)
    requires link.writesAccepted >= 1 && |link.replies| >= 1
    requires !StartsWith(link.replies[0], SERVER_HELLO)
    ensures JOIN_REQUEST !in Handshake(link).0
    ensures Handshake(link).1 == HandshakeFailure(BadGreeting(link.replies[0]))
  {
  }

  /** Any other second reply is a refusal carrying the (cleaned) reply. */
  lemma RejectedJoin(link: Link)
    requires link.writesAccepted >= 2 && |link.replies| >= 2
    requires StartsWith(link.replies[0], SERVER_HELLO)
    requires !StartsWith(link.replies[1], ACCEPT)
    ensures Handshake(link).1 == HandshakeFailure("Connection rejected: " + RejectionReason(link.replies[1]))
    ensures StartsWith(link.replies[1], REJECT) ==>
              Handshake(link).1 == HandshakeFailure("Connection rejected: " + RemoveAll(link.replies[1], REJECT))
  {
  }

  /**
   I/O failures at any step are reported only as "Handshake failed": the
   greeting cannot be written or its reply read, or, after a good greeting,
   the join request cannot be written or its reply read.
   */
  lemma IoFailureMessage(link: Link)
    requires || link.writesAccepted == 0
             || |link.replies| == 0
             || (StartsWith(link.replies[0], SERVER_HELLO) && (link.writesAccepted == 1 || |link.replies| == 1))
    ensures Handshake(link).1 == HandshakeFailure(HANDSHAKE_FAILED)
  {
  }

  /** "No: table full" gives the reason "table full". */
  lemma RejectionReasonExample()
    ensures RejectionReason("No: table full") == "table full"
  {
    var rest := "table full";
    assert "No: table full" == REJECT + rest;
    RemoveAllLeading(REJECT, rest);
    assert 'N' !in rest;
    NoOccurrenceWithoutFirst(rest, REJECT);
    RemoveAllNoOccurrence(rest, REJECT);
  }

  /** A server greeting followed by "No: table full" is refused with reason "table full". */
  lemma RejectionExample()
    ensures Handshake(Link(["Hello from PokerServer v1", "No: table full"], 2, "")).1
            == HandshakeFailure("Connection rejected: table full")
  {
    var hello := "Hello from PokerServer v1";
    var reply := "No: table full";
    assert hello[..|SERVER_HELLO|] == SERVER_HELLO;
    assert reply[0] != ACCEPT[0];
    RejectionReasonExample();
  }

  /**
   Every occurrence of "No: " is removed, not only the leading one:
   "No: No: x" gives the reason "x".
   */
  lemma RejectionRemovesEveryOccurrence()
    ensures RejectionReason("No: No: x") == "x"
  {
    assert StartsWith("No: No: x", REJECT);
    RemoveAllLeading(REJECT, "No: x");
    assert "No: No: x" == REJECT + "No: x";
    RemoveAllLeading(REJECT, "x");
    assert "No: x" == REJECT + "x";
  }

  /**
   The client constructor: the handshake, then our name sent once as a
   message event. Any failure becomes "Handshake failed: " + its message.
   */
  function Connect(link: Link, name: string): (o: (seq<Wire>, Result<(), string>))
    ensures o.1.Ok? <==> Handshake(link).1.Joined? && link.writesAccepted >= 3
    ensures o.1.Ok? ==> o.0 == [Utf(GREETING), Utf(JOIN_REQUEST), NameMessage(name)]
    ensures Handshake(link).1.HandshakeFailure? ==>
              o.1 == Err("Handshake failed: " + Handshake(link).1.message)
    ensures Handshake(link).1.Joined? && link.writesAccepted < 3 ==>
              o.1 == Err("Handshake failed: " + link.ioMessage)
    ensures o.1.Err? ==>
              |o.0| == |Handshake(link).0| && forall i :: 0 <= i < |o.0| ==> o.0[i] == Utf(Handshake(link).0[i])
    ensures forall i :: 0 <= i < |o.0| ==> (o.0[i] == NameMessage(name) <==> o.1.Ok? && i == 2)
  {
    var (lines, result) := Handshake(link);
    var written := seq(|lines|, i requires 0 <= i < |lines| => Utf(lines[i]));
    assert forall i :: 0 <= i < |written| ==> written[i].Utf?;
    match result
    case HandshakeFailure(m) => (written, Err("Handshake failed: " + m))
    case Joined =>
      if link.writesAccepted < 3 then (written, Err("Handshake failed: " + link.ioMessage))
      else (written + [NameMessage(name)], Ok(()))
  }

  // ---------------------------------------------------------------------
  // Receive loop
  // ---------------------------------------------------------------------

  /** One blocking read: an event, or a failure (closed stream, bad object). */
  datatype Read = Got(event: Event) | ReadFailure

  datatype Stop = GameOverSeen | ReadFailed | AwaitingInput

  /**
   Every event the loop reaches names seats in range. The loop stops at the
   first game-over or read failure, so the reads after it are not constrained.
   */
  predicate ReadsInRange(inputs: seq<Read>)
    decreases |inputs|
  {
    if inputs == [] then true
    else match inputs[0]
      case ReadFailure => true
      case Got(e) => IndicesInRange(e) && (e.GameOver? || ReadsInRange(inputs[1..]))
  }

  /** Hands one event to the screen, as `receiveEvent` does. */
  method Dispatch(t0: Table, done: seq<Event>, t: Table, e: Event) returns (r: Table)
    requires Valid(t0) && AllInRange(done) && IndicesInRange(e) && t == Run(t0, done)
    ensures AllInRange(done + [e]) && r == Run(t0, done + [e])
  {
    RunSnoc(t0, done, e);
    r := Step(t, e);
  }

  /**
   The reading side of the receive loop: the events read, in arrival order,
   up to and including the first game-over, or up to a failed read.
   `AwaitingInput` means the reads ran out and the loop would block on the
   next one.
   */
  method ReadEvents(inputs: seq<Read>) returns (events: seq<Event>, stop: Stop)
    ensures |events| <= |inputs|
    ensures forall i :: 0 <= i < |events| ==> i < |inputs| && inputs[i] == Got(events[i])
    ensures forall i :: 0 <= i < |events| - 1 ==> !events[i].GameOver?
    ensures stop == GameOverSeen <==> |events| > 0 && events[|events| - 1].GameOver?
    ensures stop == ReadFailed ==> |events| < |inputs| && inputs[|events|] == ReadFailure
    ensures stop == AwaitingInput ==> |events| == |inputs|
    ensures stop != GameOverSeen && |events| < |inputs| ==> stop == ReadFailed
    ensures ReadsInRange(inputs) ==> AllInRange(events)
  {
    events, stop := [], AwaitingInput;
    while |events| < |inputs| && stop == AwaitingInput
      invariant |events| <= |inputs|
      invariant forall i :: 0 <= i < |events| ==> inputs[i] == Got(events[i])
      invariant forall i :: 0 <= i < |events| - 1 ==> !events[i].GameOver?
      invariant stop == GameOverSeen <==> |events| > 0 && events[|events| - 1].GameOver?
      invariant stop == ReadFailed ==> |events| < |inputs| && inputs[|events|] == ReadFailure
      invariant ReadsInRange(inputs) ==> AllInRange(events)
      invariant ReadsInRange(inputs) && stop == AwaitingInput ==> ReadsInRange(inputs[|events|..])
      decreases |inputs| - |events|, if stop == AwaitingInput then 1 else 0
    {
      match inputs[|events|]
      case ReadFailure =>
        stop := ReadFailed;
      case Got(e) =>
        assert inputs[|events|..][0] == inputs[|events|];
        assert inputs[|events|..][1..] == inputs[|events| + 1..];
        events := events + [e];
        if e.GameOver? {
          stop := GameOverSeen;
        }
    }
  }

  /** Hands the events to the screen one by one, in order. */
  method DispatchAll(t0: Table, events: seq<Event>) returns (t: Table)
    requires Valid(t0) && AllInRange(events)
    ensures t == Run(t0, events)
  {
    t := t0;
    var k := 0;
    while k < |events|
      invariant 0 <= k <= |events| && AllInRange(events[..k]) && t == Run(t0, events[..k])
    {
      assert events[..k + 1] == events[..k] + [events[k]];
      t := Dispatch(t0, events[..k], t, events[k]);
      k := k + 1;
    }
    assert events[..k] == events;
  }

  /**
   The receive loop over the reads the connection delivers. Each event read
   is dispatched to the screen exactly once, in arrival order; a game-over
   event is dispatched and then ends the loop; a failed read ends it with
   nothing dispatched for that read. The screen is a pure state, so
   dispatching each event as it is read and dispatching the events read in
   order afterwards give the same screen.
   */
  method ReceiveLoop(t0: Table, inputs: seq<Read>) returns (t: Table, dispatched: seq<Event>, stop: Stop)
    requires Valid(t0) && ReadsInRange(inputs)
    ensures |dispatched| <= |inputs|
    ensures forall i :: 0 <= i < |dispatched| ==> i < |inputs| && inputs[i] == Got(dispatched[i])
    ensures forall i :: 0 <= i < |dispatched| - 1 ==> !dispatched[i].GameOver?
    ensures stop == GameOverSeen <==> |dispatched| > 0 && dispatched[|dispatched| - 1].GameOver?
    ensures stop == ReadFailed ==> |dispatched| < |inputs| && inputs[|dispatched|] == ReadFailure
    ensures stop == AwaitingInput ==> |dispatched| == |inputs|
    ensures stop != GameOverSeen && |dispatched| < |inputs| ==> stop == ReadFailed
    ensures AllInRange(dispatched) && t == Run(t0, dispatched)
  {
    dispatched, stop := ReadEvents(inputs);
    t := DispatchAll(t0, dispatched);
  }

  // ---------------------------------------------------------------------
  // Sender loop
  // ---------------------------------------------------------------------

  function Min(a: int, b: int): int {
    if a < b then a else b
  }

  /**
   `cycles` rounds of the sender: each round takes the oldest queued
   command, if any (as `NextCommand` does), and writes it. The link accepts `writesAccepted` writes;
   the first failed write ends the loop, and the command it carried is lost.
   */
  method SenderLoop(t0: Table, cycles: nat, writesAccepted: nat) returns (t: Table, written: seq<Command>, crashed: bool)
    ensures t == t0.(outbox := t.outbox)
    ensures crashed <==> writesAccepted < Min(cycles, |t0.outbox|)
    ensures !crashed ==> |written| == Min(cycles, |t0.outbox|) && written + t.outbox == t0.outbox
    ensures crashed ==> |written| == writesAccepted && written + [t0.outbox[|written|]] + t.outbox == t0.outbox
  {
    var queue := t0.outbox;
    written, crashed := [], false;
    var n := 0;
    while n < cycles
      invariant n <= cycles
      invariant |written| == Min(n, |t0.outbox|) <= writesAccepted
      invariant written + queue == t0.outbox
    {
      if queue != [] {
        if |written| == writesAccepted {
          crashed := true;
          t := t0.(outbox := queue[1..]);
          assert written + [queue[0]] + queue[1..] == t0.outbox;
          return;
        }
        written := written + [queue[0]];
        queue := queue[1..];
      }
      n := n + 1;
    }
    t := t0.(outbox := queue);
  }

  /** What the user and the sender do, in some interleaving. */
  datatype Activity = Click(cmd: Command) | SenderCycle

  /** The commands clicked in a sequence of activities. */
  function Clicked(acts: seq<Activity>): seq<Command>
    decreases |acts|
  {
    if acts == [] then []
    else (if acts[0].Click? then [acts[0].cmd] else []) + Clicked(acts[1..])
  }

  /**
   Runs the activities against the command queue, collecting what gets
   written. A click appends at the tail, as `SendCommand` does; a sender
   cycle takes the head, if any, as `NextCommand` does, and writes it.
   */
  function Interleave(queue: seq<Command>, written: seq<Command>, acts: seq<Activity>): (r: (seq<Command>, seq<Command>))
    decreases |acts|
  {
    if acts == [] then (queue, written)
    else if acts[0].Click? then Interleave(queue + [acts[0].cmd], written, acts[1..])
    else if queue == [] then Interleave(queue, written, acts[1..])
    else Interleave(queue[1..], written + [queue[0]], acts[1..])
  }

  /**
   One activity of `Interleave` is one call on the screen's queue: a click is
   `SendCommand`, and a sender cycle writes what `NextCommand` yields.
   */
  lemma InterleaveStepIsQueue(t: Table, written: seq<Command>, a: Activity)
    ensures a.Click? ==> Interleave(t.outbox, written, [a]) == (SendCommand(t, a.cmd).outbox, written)
    ensures a.SenderCycle? ==>
              var (next, t') := NextCommand(t);
              Interleave(t.outbox, written, [a]) == (t'.outbox, if next.Some? then written + [next.value] else written)
  {
    assert [a][1..] == [];
  }

  /**
   However clicks and sender cycles interleave, the commands written, followed
   by those still queued, are the commands that were queued before and then
   clicked, in order: nothing is lost, duplicated or reordered.
   */
  lemma {:induction false} InterleaveKeepsOrder(queue: seq<Command>, written: seq<Command>, acts: seq<Activity>)
    ensures var r := Interleave(queue, written, acts);
            r.1 + r.0 == written + queue + Clicked(acts)
    decreases |acts|
  {
    if acts != [] {
      var rest := acts[1..];
      assert acts == [acts[0]] + rest;
      if acts[0].Click? {
        InterleaveKeepsOrder(queue + [acts[0].cmd], written, rest);
        assert Clicked(acts) == [acts[0].cmd] + Clicked(rest);
        assert written + (queue + [acts[0].cmd]) + Clicked(rest) == written + queue + Clicked(acts);
      } else {
        InterleaveKeepsOrder(if queue == [] then queue else queue[1..], if queue == [] then written else written + [queue[0]], rest);
        assert Clicked(acts) == Clicked(rest);
        if queue != [] {
          assert (written + [queue[0]]) + queue[1..] == written + queue;
        }
      }
    }
  }
}
