/**
  The sending side of section 5.4 of RFC 6455, as the receive loop sees it:
  a data message split into one or more chunks, each arriving as one receive
  result, the last one flagged EndOfMessage. Reassembly undoes it.
 */
module Fragmentation {
  import opened Frames
  import opened Reassembly
  import opened ReassemblyProperties

  /** A data message as the peer fragments it. */
  datatype Outgoing = Outgoing(kind: MessageType, chunks: seq<seq<byte>>)

  /** Only data messages are fragmented, and every message has at least one
      fragment. */
  predicate Sendable(m: Outgoing)
  {
    m.kind != Close && |m.chunks| > 0
  }

  /** The receive result that carries one chunk. */
  function ChunkResult(kind: MessageType, chunk: seq<byte>, last: bool): (r: Frame)
  {
    ReceiveResult(kind, chunk, |chunk|, last)
  }

  /** The receive results of one message, in order. */
  function Fragments(kind: MessageType, chunks: seq<seq<byte>>): (r: seq<Frame>)
    requires |chunks| > 0
    decreases |chunks|
  {
    if |chunks| == 1 then [ChunkResult(kind, chunks[0], true)]
    else [ChunkResult(kind, chunks[0], false)] + Fragments(kind, chunks[1..])
  }

  /** The message the chunks were cut from. */
  function Concat(chunks: seq<seq<byte>>): (r: seq<byte>)
    decreases |chunks|
  {
    if |chunks| == 0 then [] else chunks[0] + Concat(chunks[1..])
  }

  /** The receive results of a sequence of messages. */
  function SendAll(ms: seq<Outgoing>): (r: seq<Frame>)
    requires forall n :: 0 <= n < |ms| ==> Sendable(ms[n])
    decreases |ms|
  {
    if |ms| == 0 then []
    else
      assert Sendable(ms[0]);
      Fragments(ms[0].kind, ms[0].chunks) + SendAll(ms[1..])
  }

  /** What the peer's close frame looks like to the loop. */
  const CloseResult: Frame := ReceiveResult(Close, [], 0, true)

  /** The messages the sender meant, one per outgoing message. */
  function Originals(ms: seq<Outgoing>): (r: seq<Message>)
  {
    seq(|ms|, n requires 0 <= n < |ms| => Concat(ms[n].chunks))
  }

  /** The fragments of one message form exactly one message span, of the
      message's own type. */
  lemma {:induction false} FragmentsFormOneSpan(kind: MessageType, chunks: seq<seq<byte>>)
    requires |chunks| > 0
    ensures var fs := Fragments(kind, chunks);
      && |fs| == |chunks|
      && IsMessageSpan(fs, 0, |fs|)
      && fs[|fs| - 1].messageType == kind
    decreases |chunks|
  {
    if |chunks| > 1 {
      var rest := Fragments(kind, chunks[1..]);
      FragmentsFormOneSpan(kind, chunks[1..]);
      var fs := [ChunkResult(kind, chunks[0], false)] + rest;
      forall j | 0 <= j < |fs| - 1
        ensures !fs[j].endOfMessage
      {
        if j > 0 {
          assert fs[j] == rest[j - 1];
        }
      }
    }
  }

  /** The results of a data message carry its chunks in order. */
  lemma {:induction false} FragmentsCarryChunks(kind: MessageType, chunks: seq<seq<byte>>)
    requires kind != Close && |chunks| > 0
    ensures Flatten(Fragments(kind, chunks)) == Concat(chunks)
    decreases |chunks|
  {
    var first := ChunkResult(kind, chunks[0], |chunks| == 1);
    FlattenSingle(first);
    assert chunks[0][..|chunks[0]|] == chunks[0];
    if |chunks| == 1 {
      assert Concat(chunks) == chunks[0] + Concat(chunks[1..]);
    } else {
      FragmentsCarryChunks(kind, chunks[1..]);
      FlattenAppend([first], Fragments(kind, chunks[1..]));
    }
  }

  /** Both halves together. */
  lemma FragmentsFormOneMessage(kind: MessageType, chunks: seq<seq<byte>>)
    requires kind != Close && |chunks| > 0
    ensures var fs := Fragments(kind, chunks);
      && |fs| == |chunks|
      && IsMessageSpan(fs, 0, |fs|)
      && fs[|fs| - 1].messageType == kind
      && Flatten(fs) == Concat(chunks)
  {
    FragmentsFormOneSpan(kind, chunks);
    FragmentsCarryChunks(kind, chunks);
  }

  /** N results with only the last flagged EndOfMessage assemble to the
      concatenation of their N payloads, in order. */
  lemma AssembleFragments(kind: MessageType, chunks: seq<seq<byte>>)
    requires kind != Close && |chunks| > 0
    ensures AssembleFrom(Fragments(kind, chunks), 0) == Complete(Concat(chunks), |chunks|)
  {
    var fs := Fragments(kind, chunks);
    FragmentsFormOneMessage(kind, chunks);
    AssembleSpan(fs, 0, |fs|);
    assert fs[0..|fs|] == fs;
  }

  /** Reassembly inverts fragmentation: the loop over the results of any
      sequence of data messages followed by the peer's close delivers the
      original messages in order and stops at the close. */
  lemma {:induction false} RoundTrip(ms: seq<Outgoing>)
    requires forall n :: 0 <= n < |ms| ==> Sendable(ms[n])
    ensures ReceiveLoop(SendAll(ms) + [CloseResult], Never)
      == LoopRun(Originals(ms), PeerClosed, |SendAll(ms)| + 1)
    decreases |ms|
  {
    if |ms| == 0 {
      assert SendAll(ms) + [CloseResult] == [CloseResult];
      CloseDiscardsPartial([CloseResult], [], Never);
      assert [CloseResult] + [] == [CloseResult];
    } else {
      var p := Fragments(ms[0].kind, ms[0].chunks);
      var t := SendAll(ms[1..]) + [CloseResult];
      FragmentsFormOneMessage(ms[0].kind, ms[0].chunks);
      assert SendAll(ms) + [CloseResult] == p + t;
      MessageIsolation(p, t, Never);
      RoundTrip(ms[1..]);
      assert Originals(ms) == [Concat(ms[0].chunks)] + Originals(ms[1..]);
    }
  }

  /** With cancellation before message `k`, the loop delivers the first `k`
      original messages, or all of them if there are fewer. */
  lemma RoundTripCancelled(ms: seq<Outgoing>, k: nat)
    requires forall n :: 0 <= n < |ms| ==> Sendable(ms[n])
    ensures ReceiveLoop(SendAll(ms) + [CloseResult], AfterMessages(k)).delivered
      == Originals(ms)[..Min(k, |ms|)]
  {
    RoundTrip(ms);
    CancellationKeepsCompletedPrefix(SendAll(ms) + [CloseResult], 0, k);
  }
}
