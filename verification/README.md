# NotificationWsClient, modelled in Dafny

This project models `NotificationWsClient` from the Mohawk server example, a
WebSocket client that listens for server notifications. It covers two parts
of the client:

- **The receive loop.** `ReceiveLoop` turns the stream of `ReceiveAsync`
  results into logical messages. A message is reassembled from fragments
  until a result carries EndOfMessage, which is the FIN bit of section 5.4 of
  RFC 6455 as `ClientWebSocket` reports it. A result that ends a message and
  has type Close stops the loop. The loop polls the owner's cancellation
  token before it starts each message.
- **The connection bookkeeping.** `ConnectAsync`, `DisconnectAsync` and
  `Dispose` act on the two fields the client holds: a socket and a
  cancellation token source.

Files:

- `frames.dfy`: the receive results handed to the loop. It models the
  reusable buffer, `Count`, the message type and EndOfMessage.
- `reassembly.dfy`: the loop as a recursive function over a stream of
  results. It also has the same loop written as the client writes it (a
  method with the inner do-while), proved equal to the function.
- `reassembly_props.dfy`: what the loop guarantees.
  - how a run cuts the stream into messages (both directions);
  - message isolation;
  - what a close discards;
  - what cancellation keeps;
  - which results change nothing.
- `fragmentation.dfy`: a peer that splits messages into fragments, and the
  round trip through the loop.
- `lifecycle.dfy`: the client's fields and handles, and the three calls.
  The network's answers are parameters:
  - whether the opening handshake succeeds;
  - whether the peer acknowledges a close.

  Two peer events can also change the socket between calls: the peer's
  close arrives, or the connection fails.
- `lifecycle_props.dfy`: the invariant the calls keep, the channel's
  status transitions, and properties over any sequence of calls.
- `scenarios.dfy`: concrete runs.

The model follows the code, not an idealised lifecycle:

- `DisconnectAsync` never sets its fields back to null.
- Its two close calls are not guarded. If the closing handshake fails, the
  call throws before either handle is disposed. Releasing the handles is
  therefore not guaranteed on every path.
- The close calls do not observe the client's token; they are passed
  `CancellationToken.None`. The token only reaches them through the receive
  loop. If the loop is waiting inside `ReceiveAsync` when the token fires
  (two seconds after the request), the socket aborts and the close call
  fails. If the loop is elsewhere or has already ended, nothing aborts the
  socket, and the close call waits for the peer.
- The socket field is not set exactly when the client is connected. After
  a failed connect or a disconnect, the field still holds a socket that is
  not open. `LifecycleProperties.Valid` states what does hold.

## Model

| member | source | states |
|---|---|---|
| Frames.Contribution | MohawkServerDotnet/MohawkServerDotnetExample.cs:65-66 | A receive result adds the first `Count` bytes of the buffer to the message under assembly, and a Close-typed result adds nothing. |
| Frames.FlattenAppend | MohawkServerDotnet/MohawkServerDotnetExample.cs:61-68 | The bytes gathered from a stream split at any point are the bytes of the first part followed by those of the second: writing each result's counted bytes into one buffer is concatenation. |
| Frames.NeutralFrameAddsNothing | MohawkServerDotnet/MohawkServerDotnetExample.cs:65-66 | A result with Count 0, or of type Close, adds no bytes to a message, wherever it sits; bytes left in the shared buffer from earlier reads are never copied. |
| Reassembly.AssembleFrom | MohawkServerDotnet/MohawkServerDotnetExample.cs:62-68 | The do-while completes a message exactly when some result still to be read is flagged EndOfMessage, and it stops just past the first such result. `Reassembly.FirstEndIsFirst` shows that this result is flagged and none before it is. |
| Reassembly.AssembleReadsFirstMessage | MohawkServerDotnet/MohawkServerDotnetExample.cs:61-68 | Assembling from any position completes if and only if a later result carries EndOfMessage. It stops at the first such result and no earlier, and its bytes are the concatenated contributions of exactly the results read; otherwise it holds the rest of the stream. |
| Reassembly.AssembleSpan | MohawkServerDotnet/MohawkServerDotnetExample.cs:62-68 | Starting at the first result of a whole message, the inner do-while yields exactly that message's bytes and stops just after its last result. |
| Reassembly.ReceiveLoopFrom | MohawkServerDotnet/MohawkServerDotnetExample.cs:59-72 | A loop cancelled before message k delivers at most k messages. It reports cancellation if and only if it delivered exactly k. It never reads past the stream, and it is only left waiting once it has read all of it. |
| Reassembly.ReceiveLoopTurn | MohawkServerDotnet/MohawkServerDotnetExample.cs:59-71 | One iteration over a whole message either stops the loop when the message's last result is a close, or delivers the message's bytes and continues from the next result with the next cancellation point. |
| Reassembly.ReceiveLoopRunsOut | MohawkServerDotnet/MohawkServerDotnetExample.cs:62-68 | If no further result ends a message, the loop delivers nothing more. It is left inside ReceiveAsync holding everything read since the last message. |
| Reassembly.ReadMessage | MohawkServerDotnet/MohawkServerDotnetExample.cs:61-68 | The do-while written with a loop and a fresh output buffer. It either ends on the first EndOfMessage result, returning that result and the message's bytes, or runs out of input having seen no EndOfMessage. |
| Reassembly.ReceiveLoopImpl | MohawkServerDotnet/MohawkServerDotnetExample.cs:51-79 | The loop as the client writes it has the same deliveries, the same exit and the same read count as the recursive definition, for every stream and every cancellation point. |
| ReassemblyProperties.ReceiveLoopSegments | MohawkServerDotnet/MohawkServerDotnetExample.cs:59-71 | Every run cuts the stream into consecutive spans, one per delivered message. Each span ends at the first EndOfMessage after its start, is not a close, and its message is the concatenation of its results' bytes. The run then stops on cancellation, on a close-ended span, or while waiting. |
| ReassemblyProperties.SegmentsDetermineRun | MohawkServerDotnet/MohawkServerDotnetExample.cs:59-71 | The converse: any run that segments the stream this way and honours the cancellation count is the loop's run. |
| ReassemblyProperties.ReceiveLoopShift | MohawkServerDotnet/MohawkServerDotnetExample.cs:59-61 | The loop started at a position of a stream behaves the same whatever results precede that stream. Its run is the run on the stream alone, with the read count shifted by the number of preceding results. |
| ReassemblyProperties.MessageIsolation | MohawkServerDotnet/MohawkServerDotnetExample.cs:59-71 | A whole data message in front of a stream is delivered as exactly its own bytes. The rest is then processed as a fresh stream, with the cancellation point moved by one. |
| ReassemblyProperties.NoCarryOver | MohawkServerDotnet/MohawkServerDotnetExample.cs:61 | Replacing the first message by any other leaves every later delivered message, and how the loop stops, unchanged: the per-message buffer carries nothing over. |
| ReassemblyProperties.CloseDiscardsPartial | MohawkServerDotnet/MohawkServerDotnetExample.cs:68-69 | When the result that ends a message is a close, the loop stops right after it. It delivers nothing, even if earlier results of that message carried data. |
| ReassemblyProperties.PartialNeverDelivered | MohawkServerDotnet/MohawkServerDotnetExample.cs:59-68 | A stream with no EndOfMessage delivers nothing. Its bytes stay in the pending buffer unless the cancellation was already visible before the first read. |
| ReassemblyProperties.CancellationKeepsCompletedPrefix | MohawkServerDotnet/MohawkServerDotnetExample.cs:59-74 | Cancelling before message k delivers exactly the first k messages an uncancelled loop delivers (all of them if there are fewer), and reports cancellation whenever the uncancelled loop had at least k. |
| ReassemblyProperties.NeutralAssemble | MohawkServerDotnet/MohawkServerDotnetExample.cs:62-68 | Inserting a result with no EndOfMessage and no bytes anywhere after the starting point leaves assembly's outcome the same. It completes in the same case, with the same bytes, and ends on the same result, one position later if that result follows the insertion. |
| ReassemblyProperties.NeutralResultInvisible | MohawkServerDotnet/MohawkServerDotnetExample.cs:62-69 | A result that neither ends a message nor adds bytes (Count 0, or a close without EndOfMessage) changes neither the delivered messages nor how the loop stops, wherever it appears; only the type of the ending result is ever inspected. |
| Fragmentation.AssembleFragments | MohawkServerDotnet/MohawkServerDotnetExample.cs:62-68 | A message sent as any non-empty sequence of fragments is reassembled to the concatenation of the fragments, consuming exactly them. |
| Fragmentation.RoundTrip | MohawkServerDotnet/MohawkServerDotnetExample.cs:51-79 | Any sequence of fragmented data messages followed by the peer's close is delivered as exactly the original messages, in order, and the loop then stops on the close after reading every result. |
| Fragmentation.RoundTripCancelled | MohawkServerDotnet/MohawkServerDotnetExample.cs:59-72 | With cancellation before message k, the loop delivers exactly the first k original messages (all of them if there are fewer). |
| Lifecycle.Connect | MohawkServerDotnet/MohawkServerDotnetExample.cs:24-36 | On an open socket, ConnectAsync does nothing. Otherwise it installs a fresh, undisposed socket and token source with the next two identities. The socket is open, and the call completes, if and only if the handshake succeeds. A refused handshake throws the connection error, and an address that does not parse throws the invalid-address error. The effects are exactly these, in the source's order: the old socket's disposal, the new socket's creation, the old token source's disposal and the new source's creation. Then comes the handshake, unless the address does not parse. Last, and only after a successful handshake, comes one receive loop bound to the fresh socket and source. Nothing else is emitted. |
| Lifecycle.Reconnect | MohawkServerDotnet/MohawkServerDotnetExample.cs:29-35 | Past the open-socket check, ConnectAsync installs a fresh socket and token source with the next two identities. The effects are exactly the old handles' disposals and the new handles' creations in the source's order, then the handshake unless the address does not parse, then one receive loop bound to the fresh handles after a successful handshake. The outcome is completion, the connection error or the invalid-address error as the handshake goes. |
| Lifecycle.CloseOpen | MohawkServerDotnet/MohawkServerDotnetExample.cs:41-48 | On an open socket, a null token source throws a null reference and a disposed one throws an object-disposed error, both before any effect. Otherwise the effects are the cancellation request, the output close and the closing handshake. An acknowledging peer is followed by the two disposals, and the socket ends Closed. An unresponsive peer throws the close error, the socket ends Aborted, and neither handle's disposed flag changes. |
| Lifecycle.Release | MohawkServerDotnet/MohawkServerDotnetExample.cs:47-48 | On a socket that is not open, the only effects are the socket's disposal and then the token source's. A null token source throws a null reference after the socket's disposal. The socket ends disposed, and the token source's cancellation flag is unchanged. |
| Lifecycle.Disconnect | MohawkServerDotnet/MohawkServerDotnetExample.cs:38-49 | Without a socket, DisconnectAsync does nothing. It creates no handle, starts no loop and never resets a field to null. Cancellation is requested exactly when the socket was open and the token source usable. On an open socket with a usable token source, its effects are the cancellation request, the output close and the closing handshake, in that order. With an acknowledging peer these are followed by the socket's and the source's disposal and nothing else, and the socket ends Closed. With an unresponsive peer there is nothing after the three, it throws the close error, the socket ends Aborted, and neither handle's disposed flag changes. On an open socket with a null or disposed token source, it throws before any effect. On a socket that is not open, it skips the close calls and only disposes, the socket first; it throws a null reference if the token source is null. Whenever it completes on a socket, its last two effects dispose both handles. |
| Lifecycle.Dispose | MohawkServerDotnet/MohawkServerDotnetExample.cs:91 | Dispose is exactly DisconnectAsync run to completion: same client, same effects, same outcome. In particular, Dispose without a socket does nothing and completes. When it completes, both handles the client held are disposed. It creates nothing and starts no loop. |
| Lifecycle.Interrupt | MohawkServerDotnet/MohawkServerDotnetExample.cs:64-69 | Outside any call, the receive loop can read the peer's close (the socket moves to CloseReceived and the loop ends) or the connection can fail (the socket aborts). Only an open socket changes, and afterwards it is not open. Its identity, its disposed flag, the token source and the identity counter are unchanged. |
| LifecycleProperties.InitialValid | MohawkServerDotnet/MohawkServerDotnetExample.cs:22-23 | A newly constructed client, with both fields null, satisfies the client invariant. |
| LifecycleProperties.ConnectPreservesValid | MohawkServerDotnet/MohawkServerDotnetExample.cs:24-36 | ConnectAsync keeps the invariant: a socket exactly when a token source, both disposed together, and an open socket neither disposed nor cancelled. It never dereferences a null or disposed handle. |
| LifecycleProperties.DisconnectPreservesValid | MohawkServerDotnet/MohawkServerDotnetExample.cs:38-49 | DisconnectAsync keeps the invariant. On a valid client, the only exception it can end with is a failed closing handshake. |
| LifecycleProperties.StatusTransitions | MohawkServerDotnet/MohawkServerDotnetExample.cs:24-49 | Connect from Disconnected reaches Connected exactly when the handshake succeeds, and otherwise throws. Connect while connected stays connected. Disconnect always leaves the channel not connected. |
| LifecycleProperties.ConnectTwice | MohawkServerDotnet/MohawkServerDotnetExample.cs:26-28 | A second ConnectAsync after a successful one changes nothing and has no effect, so the two together start at most one receive loop. |
| LifecycleProperties.DisconnectTwice | MohawkServerDotnet/MohawkServerDotnetExample.cs:38-49 | A second DisconnectAsync after a completed one leaves the client unchanged. It completes, and it only disposes the same two handles again. |
| LifecycleProperties.ReconnectAfterDisconnect | MohawkServerDotnet/MohawkServerDotnetExample.cs:29-35 | After a disconnect that leaves the socket not open (every completed one does), a successful ConnectAsync opens a new socket with a new token source, different from the old ones, and starts exactly one loop bound to them. |
| LifecycleProperties.InterruptPreservesValid | MohawkServerDotnet/MohawkServerDotnetExample.cs:64-69 | A peer close or a connection failure between calls keeps the client invariant. |
| LifecycleProperties.AfterPeerEvent | MohawkServerDotnet/MohawkServerDotnetExample.cs:26-47 | Once the peer has closed or the connection has failed, ConnectAsync no longer returns early: it replaces both handles with new ones, disposes the old ones and starts one loop. DisconnectAsync skips the close calls and completes after disposing exactly the two handles. |
| LifecycleProperties.RunPreservesValid | MohawkServerDotnet/MohawkServerDotnetExample.cs:24-49 | From any valid client, every sequence of calls and peer events keeps the invariant, and no call in it raises a null-reference or disposed-object fault. |
| LifecycleProperties.FreshSourcePerLoop | MohawkServerDotnet/MohawkServerDotnetExample.cs:33-35 | Over any sequence of calls and peer events, each receive loop started is bound to a strictly newer token source than every loop before it, never to one that existed before the sequence. |
| LifecycleProperties.ReplacedHandlesAreDisposed | MohawkServerDotnet/MohawkServerDotnetExample.cs:26-48 | Over any sequence of calls and peer events, every socket and token source the client created or held at the start and no longer holds at the end has been disposed. |
| Scenarios.DeliveryScenario | MohawkServerDotnet/MohawkServerDotnetExample.cs:59-71 | Fragments "ab" then "cd" arrive as one message "abcd". A zero-count result ending a message is delivered as an empty message, although the buffer still holds stale bytes. |
| Scenarios.ClosingScenario | MohawkServerDotnet/MohawkServerDotnetExample.cs:68-69 | The same stream followed by the peer's close delivers the same two messages, then stops on the close. |
| Scenarios.OrderlySessionScenario | MohawkServerDotnet/MohawkServerDotnetExample.cs:24-49 | Connecting and then disconnecting from an acknowledging peer starts one loop and ends with both handles disposed and the socket Closed. |
| Scenarios.UnreachableScenario | MohawkServerDotnet/MohawkServerDotnetExample.cs:31-34 | A refused connection throws a connection error, leaves the socket not open and starts no loop. |
| Scenarios.UnresponsivePeerScenario | MohawkServerDotnet/MohawkServerDotnetExample.cs:41-48 | With a peer that never acknowledges the close, the first disconnect throws with the socket aborted and nothing disposed. A later Dispose finds the socket not open and disposes both handles. |

## Left out

- MohawkWebServerExample, the request/response HTTP client in the same file, is not part of this model. Neither are `ConstructUrl` and its helpers.
- The receive loop and the connection bookkeeping are separate models. A loop run that ends on the peer's close corresponds to the `CloseArrives` event, and a transport failure to `ConnectionLost`. The model states this correspondence and does not derive one model from the other.
- `ResponseReceived` only decodes the message as text and writes it to the console. The model stops at the list of delivered messages in order.
- Time is not modelled. `CancelAfter(2s)` is recorded as an effect that marks the token source. When the token fires relative to the stream is the `Cancellation` parameter: never, or before message k. For the close handshake it is the `PeerResponse` parameter.
- Threads are not modelled. This covers `Task.Factory.StartNew`, running the loop concurrently with later calls, and the loop re-reading both the `WS` and the `CTS` field on each receive (line 64). A loop that outlived a reconnection would therefore read from the new socket with the new token. The model records the start of a loop as an effect naming the socket and token source it was started with.
- Exceptions escaping the loop are not modelled as exits. The model does not distinguish a receive cancelled mid-message (whether or not it surfaces as `TaskCanceledException`) from a transport failure or a read that never completes. All three are the run over the results read so far, ending in `Receiving`. The run has delivered the same messages and delivers nothing more.
- `ReceiveBufferSize` (8192 by default) is not modelled. The model takes whatever buffer the socket fills and keeps only the fact that `Count` never exceeds it. A negative size makes the buffer allocation at line 56 throw before the loop starts; the model has no such failure.
- Frames.Flatten: a message's length is unbounded. `MemoryStream` holds at most int.MaxValue bytes, so a longer message makes the write at line 66 throw an exception the loop does not catch; the loop then faults without delivering it. The model delivers it.
- `MemoryStream` positioning and disposal, and the `finally` block that disposes the last stream, are left out. A message is its sequence of bytes.
- `Dispose` blocks on `DisconnectAsync` with `Wait()`, which wraps any exception in an `AggregateException`. The model reports the inner exception.
- Parsing the URL with `new Uri(url)` is folded into the `HandshakeResult` parameter as `Malformed`. The model does not check URL syntax.
- Lifecycle.PeerResponse: `Unresponsive` describes only a peer whose silence is cut short by the grace period, that is, the receive loop is waiting inside `ReceiveAsync` when the token fires. If the loop is elsewhere or has already ended, the close call, which is passed `CancellationToken.None`, waits forever, and `DisconnectAsync` and `Dispose` never return. The model has no outcome for a call that never returns.
- Lifecycle.Connect: the states a socket passes through while connecting (Connecting), and the exception types of a failed handshake, are collapsed into `ConnectionError`. The socket is left Closed.
