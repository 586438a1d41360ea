/**
  The data a ClientWebSocket hands to the notification client's receive loop.

  Each call to ReceiveAsync fills (a prefix of) one reusable byte buffer and
  returns a receive result: the message type, how many bytes it wrote (Count)
  and whether this result ends the current logical message (EndOfMessage, the
  FIN bit of section 5.2 of RFC 6455 as the .NET socket surfaces it).
 */
module Frames {

  /** One octet as read off the socket. */
  newtype byte = b: int | 0 <= b < 256

  /** WebSocketMessageType: the two data types and the close control type. */
  datatype MessageType = Text | Binary | Close

  /** A receive result together with the shared buffer as it stands after the
      read. Bytes of `buffer` past `count` are left over from earlier reads. */
  datatype ReceiveResult = ReceiveResult(
    messageType: MessageType,
    buffer: seq<byte>,
    count: nat,
    endOfMessage: bool)

  /** The socket never reports more bytes than the buffer it was handed holds. */
  type Frame = r: ReceiveResult | r.count <= |r.buffer|
    witness ReceiveResult(Close, [], 0, true)

  /** The bytes one receive result adds to the message under assembly: the
      first `count` bytes of the buffer, and nothing for a close result. */
  function Contribution(f: Frame): (r: seq<byte>)
    ensures |r| == (if f.messageType == Close then 0 else f.count)
    ensures r <= f.buffer
  {
    if f.messageType == Close then [] else f.buffer[..f.count]
  }

  /** The in-order concatenation of the contributions of `fs`. */
  function Flatten(fs: seq<Frame>): (r: seq<byte>)
  {
    if |fs| == 0 then [] else Flatten(fs[..|fs| - 1]) + Contribution(fs[|fs| - 1])
  }

  /** No result in `fs[lo..hi]` ends a message. */
  predicate NoEndIn(fs: seq<Frame>, lo: int, hi: int)
    requires 0 <= lo && hi <= |fs|
  {
    forall j :: lo <= j < hi ==> !fs[j].endOfMessage
  }

  /** `fs[lo..hi]` is exactly one logical message: it ends with the first
      result at or after `lo` that carries EndOfMessage. */
  predicate IsMessageSpan(fs: seq<Frame>, lo: int, hi: int)
  {
    && 0 <= lo < hi <= |fs|
    && fs[hi - 1].endOfMessage
    && NoEndIn(fs, lo, hi - 1)
  }

  /** Splitting the stream anywhere splits the assembled bytes at the same
      place: assembly is a concatenation. */
  lemma {:induction false} FlattenAppend(a: seq<Frame>, b: seq<Frame>)
    ensures Flatten(a + b) == Flatten(a) + Flatten(b)
    decreases |b|
  {
    if |b| == 0 {
      assert a + b == a;
    } else {
      var b', last := b[..|b| - 1], b[|b| - 1];
      assert (a + b)[..|a + b| - 1] == a + b';
      assert (a + b)[|a + b| - 1] == last;
      FlattenAppend(a, b');
      var x, y, z := Flatten(a), Flatten(b'), Contribution(last);
      assert Flatten(a + b) == x + y + z;
      assert Flatten(b) == y + z;
      assert x + y + z == x + (y + z);
    }
  }

  /** A single result assembles to its own contribution. */
  lemma FlattenSingle(f: Frame)
    ensures Flatten([f]) == Contribution(f)
  {
    assert [f][..0] == [];
  }

  /** A zero-count result, and any close result, adds nothing wherever it sits. */
  lemma {:induction false} NeutralFrameAddsNothing(a: seq<Frame>, f: Frame, b: seq<Frame>)
    requires f.count == 0 || f.messageType == Close
    ensures Flatten(a + [f] + b) == Flatten(a + b)
  {
    FlattenAppend(a + [f], b);
    FlattenAppend(a, [f]);
    FlattenSingle(f);
    FlattenAppend(a, b);
  }
}
