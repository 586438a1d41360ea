/**
  Concrete runs of the client: a connection that receives a fragmented
  message and an empty one and is then closed by agreement, a connection
  attempt to an unreachable address, and a disconnect from a peer that never
  acknowledges the close.
 */
module Scenarios {
  import opened Frames
  import opened Reassembly
  import opened Lifecycle
  import Fragmentation

  /** "ab" without EndOfMessage, "cd" with it, then a zero-count result
      flagged EndOfMessage whose buffer still holds "cd" from the last read. */
  const Received: seq<Frame> := [
    ReceiveResult(Text, [97, 98], 2, false),
    ReceiveResult(Text, [99, 100], 2, true),
    ReceiveResult(Text, [99, 100], 0, true)
  ]

  /** The first two results make "abcd". */
  lemma FirstMessage(fs: seq<Frame>)
    requires |fs| >= 3 && fs[..3] == Received
    ensures IsMessageSpan(fs, 0, 2) && fs[1].messageType == Text
    ensures Flatten(fs[0..2]) == [97, 98, 99, 100]
  {
    assert fs[0..2] == [fs[0]] + [fs[1]];
    FlattenAppend([fs[0]], [fs[1]]);
    FlattenSingle(fs[0]);
    FlattenSingle(fs[1]);
  }

  /** The zero-count result makes an empty message. */
  lemma SecondMessage(fs: seq<Frame>)
    requires |fs| >= 3 && fs[..3] == Received
    ensures IsMessageSpan(fs, 2, 3) && fs[2].messageType == Text
    ensures Flatten(fs[2..3]) == []
  {
    assert fs[2..3] == [fs[2]];
    FlattenSingle(fs[2]);
  }

  /** The handler sees "abcd" and then an empty message; the stale bytes of
      the shared buffer never leak into it. The loop then waits for more. */
  lemma DeliveryScenario()
    ensures ReceiveLoop(Received, Never) == LoopRun([[97, 98, 99, 100], []], Receiving([]), 3)
  {
    var fs := Received;
    assert fs[..3] == Received;
    FirstMessage(fs);
    SecondMessage(fs);
    var tail := ReceiveLoopFrom(fs, 3, Never);
    ReceiveLoopRunsOut(fs, 3, Never);
    assert fs[3..] == [];
    ReceiveLoopTurn(fs, 2, 3, Never);
    assert ReceiveLoopFrom(fs, 2, Never) == After([[]], tail);
    ReceiveLoopTurn(fs, 0, 2, Never);
  }

  /** The same results followed by the peer's close frame: the loop
      delivers the same two messages and stops at the close. */
  lemma ClosingScenario()
    ensures ReceiveLoop(Received + [Fragmentation.CloseResult], Never)
      == LoopRun([[97, 98, 99, 100], []], PeerClosed, 4)
  {
    var fs := Received + [Fragmentation.CloseResult];
    assert fs[..3] == Received;
    FirstMessage(fs);
    SecondMessage(fs);
    assert IsMessageSpan(fs, 3, 4);
    ReceiveLoopTurn(fs, 3, 4, Never);
    var tail := ReceiveLoopFrom(fs, 3, Never);
    ReceiveLoopTurn(fs, 2, 3, Never);
    assert ReceiveLoopFrom(fs, 2, Never) == After([[]], tail);
    ReceiveLoopTurn(fs, 0, 2, Never);
  }

  /** Connect, receive, and disconnect with a peer that acknowledges at
      once: the channel ends neither open nor holding undisposed handles,
      and it started exactly one loop. */
  lemma OrderlySessionScenario(url: string)
    ensures var connected := Connect(Initial, url, Accepted);
      var closed := Disconnect(connected.client, Acknowledged);
      && connected.outcome == Completed && IsOpen(connected.client)
      && LoopsStarted(connected.effects) == 1
      && closed.outcome == Completed && !IsOpen(closed.client)
      && closed.client.ws.obj.disposed && closed.client.cts.obj.disposed
      && closed.client.ws.obj.state == Closed
  {
  }

  /** A connection attempt to an unreachable address fails with a connection
      error, leaves the channel closed and starts no loop. */
  lemma UnreachableScenario(url: string)
    ensures var r := Connect(Initial, url, Refused);
      && r.outcome == Threw(ConnectionError)
      && !IsOpen(r.client)
      && LoopsStarted(r.effects) == 0
  {
  }

  /** A peer that never acknowledges the close: the first teardown ends with
      the socket aborted and the close call's exception, before anything is
      disposed; a second teardown finds the socket no longer open and
      disposes both handles. */
  lemma UnresponsivePeerScenario(url: string)
    ensures var connected := Connect(Initial, url, Accepted);
      var first := Disconnect(connected.client, Unresponsive);
      var second := Dispose(first.client, Unresponsive);
      && first.outcome == Threw(CloseError)
      && first.client.ws.obj.state == Aborted
      && !first.client.ws.obj.disposed && !first.client.cts.obj.disposed
      && first.client.cts.obj.cancelRequested
      && second.outcome == Completed
      && second.client.ws.obj.disposed && second.client.cts.obj.disposed
      && second.effects == [DisposeSocket(connected.client.ws.obj.id), DisposeSource(connected.client.cts.obj.id)]
  {
  }
}
