/**
  The receive loop of NotificationWsClient: it turns a stream of receive
  results into delivered messages (the fragmentation scheme of section 5.4 of
  RFC 6455, seen through ClientWebSocket). Positions count the results the
  loop has read so far.
 */
module Reassembly {
  import opened Frames

  /** A logical message as handed to the delivery sink. */
  type Message = seq<byte>

  /** The outcome of assembling one message: its bytes and the position just
      past the result that ended it, or the bytes gathered before the stream
      ran out. */
  datatype Assembly =
    | Complete(body: Message, end: nat)
    | Incomplete(partial: Message)

  /** The position of the first result at or after `i` flagged
      EndOfMessage, or the length of the stream when there is none. */
  function FirstEnd(fs: seq<Frame>, i: nat): (r: nat)
    requires i <= |fs|
    decreases |fs| - i
  {
    if i == |fs| || fs[i].endOfMessage then i else FirstEnd(fs, i + 1)
  }

  /** FirstEnd finds an EndOfMessage result, the first one, when there is
      one, and no result before it ends a message. */
  lemma {:induction false} FirstEndIsFirst(fs: seq<Frame>, i: nat)
    requires i <= |fs|
    ensures i <= FirstEnd(fs, i) <= |fs|
    ensures NoEndIn(fs, i, FirstEnd(fs, i))
    ensures FirstEnd(fs, i) < |fs| ==> fs[FirstEnd(fs, i)].endOfMessage
    decreases |fs| - i
  {
    if i < |fs| && !fs[i].endOfMessage {
      FirstEndIsFirst(fs, i + 1);
    }
  }

  /** Reads results from position `i` into a fresh buffer until the first one
      flagged EndOfMessage; close results add no bytes. */
  function AssembleFrom(fs: seq<Frame>, i: nat): (r: Assembly)
    requires i <= |fs|
    ensures r.Complete? ==> i < r.end <= |fs|
    ensures r.Complete? <==> FirstEnd(fs, i) < |fs|
    ensures r.Complete? ==> r.end == FirstEnd(fs, i) + 1
    decreases |fs| - i
  {
    if i == |fs| then
      Incomplete([])
    else if fs[i].endOfMessage then
      Complete(Contribution(fs[i]), i + 1)
    else
      match AssembleFrom(fs, i + 1)
      case Complete(body, end) => Complete(Contribution(fs[i]) + body, end)
      case Incomplete(partial) => Incomplete(Contribution(fs[i]) + partial)
  }

  /** What assembling from `i` reads: up to and including the first
      EndOfMessage result if there is one, the rest of the stream otherwise,
      concatenating the contributions of everything it reads. */
  predicate ReadsFirstMessage(fs: seq<Frame>, i: nat, x: Assembly)
    requires i <= |fs|
  {
    && (x.Complete? <==> !NoEndIn(fs, i, |fs|))
    && (x.Complete? ==> IsMessageSpan(fs, i, x.end) && x.body == Flatten(fs[i..x.end]))
    && (x.Incomplete? ==> x.partial == Flatten(fs[i..]))
  }

  /** Assembly stops at the first EndOfMessage result after `i` and no
      earlier, and its buffer is the in-order concatenation of the
      contributions of every result it read; without such a result it reads
      the rest of the stream. */
  lemma {:induction false} AssembleReadsFirstMessage(fs: seq<Frame>, i: nat)
    requires i <= |fs|
    ensures ReadsFirstMessage(fs, i, AssembleFrom(fs, i))
    decreases |fs| - i
  {
    if i == |fs| {
      assert fs[i..] == [];
    } else {
      var f := fs[i];
      FlattenSingle(f);
      if f.endOfMessage {
        assert fs[i..i + 1] == [f];
      } else {
        AssembleReadsFirstMessage(fs, i + 1);
        match AssembleFrom(fs, i + 1)
        case Complete(body, end) =>
          assert fs[i..end] == [f] + fs[i + 1..end];
          FlattenAppend([f], fs[i + 1..end]);
        case Incomplete(partial) =>
          assert fs[i..] == [f] + fs[i + 1..];
          FlattenAppend([f], fs[i + 1..]);
      }
    }
  }

  /** A message ends at the first EndOfMessage result, so it has one end. */
  lemma SpanUnique(fs: seq<Frame>, lo: int, h1: int, h2: int)
    requires IsMessageSpan(fs, lo, h1) && IsMessageSpan(fs, lo, h2)
    ensures h1 == h2
  {
  }

  /** Assembly from the start of a whole message yields exactly that message. */
  lemma AssembleSpan(fs: seq<Frame>, i: nat, h: int)
    requires IsMessageSpan(fs, i, h)
    ensures AssembleFrom(fs, i) == Complete(Flatten(fs[i..h]), h)
  {
    AssembleReadsFirstMessage(fs, i);
    assert !NoEndIn(fs, i, |fs|) by {
      assert fs[h - 1].endOfMessage;
    }
    SpanUnique(fs, i, AssembleFrom(fs, i).end, h);
  }

  /** When the owner's cancellation becomes visible to the loop's poll at the
      top of each iteration: never, or before the loop would start message
      number `k` (counting from 0 the messages it delivers). */
  datatype Cancellation = Never | AfterMessages(k: nat) {

    /** The poll at the top of the loop sees the request now. */
    predicate Observed()
    {
      AfterMessages? && k == 0
    }

    /** The same request, seen from the next message on. */
    function Next(): (r: Cancellation)
    {
      match this
      case Never => Never
      case AfterMessages(k) => if k == 0 then this else AfterMessages(k - 1)
    }
  }

  /** Why the loop stopped: its poll saw cancellation, a result ending a
      message was of type Close, or the stream ran out and it is still waiting
      inside ReceiveAsync with `partial` assembled so far. */
  datatype Exit = Cancelled | PeerClosed | Receiving(partial: Message)

  /** Everything a run of the loop produces: the messages it handed to the
      sink in order, how it stopped, and how many results it had read. */
  datatype LoopRun = LoopRun(delivered: seq<Message>, exit: Exit, consumed: nat)

  /** The run `run` preceded by the deliveries `d`. */
  function After(d: seq<Message>, run: LoopRun): (r: LoopRun)
  {
    LoopRun(d + run.delivered, run.exit, run.consumed)
  }

  /** The loop's run from position `i`: poll, assemble one message, stop if
      the result that ended it is a close, otherwise deliver it and start
      again with a fresh buffer. */
  function ReceiveLoopFrom(fs: seq<Frame>, i: nat, cancel: Cancellation): (r: LoopRun)
    requires i <= |fs|
    ensures cancel.AfterMessages? ==> |r.delivered| <= cancel.k
    ensures r.exit.Cancelled? <==> cancel.AfterMessages? && |r.delivered| == cancel.k
    ensures i <= r.consumed <= |fs|
    ensures r.exit.Receiving? ==> r.consumed == |fs|
    decreases |fs| - i
  {
    if cancel.Observed() then
      LoopRun([], Cancelled, i)
    else
      match AssembleFrom(fs, i)
      case Incomplete(partial) => LoopRun([], Receiving(partial), |fs|)
      case Complete(body, end) =>
        if fs[end - 1].messageType == Close then
          LoopRun([], PeerClosed, end)
        else
          After([body], ReceiveLoopFrom(fs, end, cancel.Next()))
  }

  /** The loop over a whole stream, from a fresh connection. */
  function ReceiveLoop(fs: seq<Frame>, cancel: Cancellation): (r: LoopRun)
  {
    ReceiveLoopFrom(fs, 0, cancel)
  }

  lemma AfterAfter(d1: seq<Message>, d2: seq<Message>, r: LoopRun)
    ensures After(d1, After(d2, r)) == After(d1 + d2, r)
  {
    assert d1 + (d2 + r.delivered) == (d1 + d2) + r.delivered;
  }

  /** One turn of the loop over a whole message starting at `i`. */
  lemma ReceiveLoopTurn(fs: seq<Frame>, i: nat, h: int, cancel: Cancellation)
    requires IsMessageSpan(fs, i, h) && !cancel.Observed()
    ensures fs[h - 1].messageType == Close ==>
      ReceiveLoopFrom(fs, i, cancel) == LoopRun([], PeerClosed, h)
    ensures fs[h - 1].messageType != Close ==>
      ReceiveLoopFrom(fs, i, cancel) == After([Flatten(fs[i..h])], ReceiveLoopFrom(fs, h, cancel.Next()))
  {
    AssembleSpan(fs, i, h);
  }

  /** The loop on a stream that never completes another message waits with
      all of it. */
  lemma ReceiveLoopRunsOut(fs: seq<Frame>, i: nat, cancel: Cancellation)
    requires i <= |fs| && NoEndIn(fs, i, |fs|) && !cancel.Observed()
    ensures ReceiveLoopFrom(fs, i, cancel) == LoopRun([], Receiving(Flatten(fs[i..])), |fs|)
  {
    AssembleReadsFirstMessage(fs, i);
  }

  /** Reading one more result extends the buffer by its contribution. */
  lemma ReadOne(fs: seq<Frame>, start: int, next: int)
    requires 0 <= start <= next < |fs|
    ensures Flatten(fs[start..next + 1]) == Flatten(fs[start..next]) + Contribution(fs[next])
  {
    assert fs[start..next + 1] == fs[start..next] + [fs[next]];
    FlattenAppend(fs[start..next], [fs[next]]);
    FlattenSingle(fs[next]);
  }

  /** The do-while of the loop: reads results from position `start` into a
      new buffer until one carries EndOfMessage. `ended` is false when the
      stream runs out first, i.e. the await is still pending. */
  method ReadMessage(fs: seq<Frame>, start: nat)
    returns (output: Message, result: Frame, next: nat, ended: bool)
    requires start <= |fs|
    ensures !ended ==> next == |fs| && NoEndIn(fs, start, |fs|) && output == Flatten(fs[start..])
    ensures ended ==>
      && IsMessageSpan(fs, start, next)
      && result == fs[next - 1]
      && output == Flatten(fs[start..next])
  {
    output := [];
    result := ReceiveResult(Close, [], 0, true);
    next := start;
    while true
      invariant start <= next <= |fs|
      invariant NoEndIn(fs, start, next)
      invariant output == Flatten(fs[start..next])
      decreases |fs| - next
    {
      if next == |fs| {
        assert fs[start..next] == fs[start..];
        return output, result, next, false;
      }
      result := fs[next];
      ReadOne(fs, start, next);
      next := next + 1;
      if result.messageType != Close {
        output := output + Contribution(result);
      }
      if result.endOfMessage {
        break;
      }
    }
    return output, result, next, true;
  }

  /** The loop written the way the client writes it: a poll of the token at
      the top, the do-while of ReadMessage, a break on Close and a hand-off to
      the sink. Reading past the end of `fs` stands for an await that has not
      completed. */
  method ReceiveLoopImpl(fs: seq<Frame>, cancel: Cancellation)
    returns (delivered: seq<Message>, exit: Exit, consumed: nat)
    ensures LoopRun(delivered, exit, consumed) == ReceiveLoop(fs, cancel)
  {
    delivered := [];
    var token := cancel;
    var i := 0;
    while !token.Observed()
      invariant 0 <= i <= |fs|
      invariant ReceiveLoop(fs, cancel) == After(delivered, ReceiveLoopFrom(fs, i, token))
      decreases |fs| - i
    {
      var output, result, next, ended := ReadMessage(fs, i);
      if !ended {
        ReceiveLoopRunsOut(fs, i, token);
        return delivered, Receiving(output), |fs|;
      }
      ReceiveLoopTurn(fs, i, next, token);
      if result.messageType == Close {
        return delivered, PeerClosed, next;
      }
      AfterAfter(delivered, [output], ReceiveLoopFrom(fs, next, token.Next()));
      i := next;
      delivered := delivered + [output];
      token := token.Next();
    }
    return delivered, Cancelled, i;
  }
}
