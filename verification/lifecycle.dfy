/**
  The connection bookkeeping of NotificationWsClient: which socket and which
  cancellation token source it holds, in what state, and what ConnectAsync,
  DisconnectAsync and Dispose do to them. Sockets and token sources are
  handles with a disposed flag; each call returns the new client, the
  observable effects it performed in order, and whether it completed or
  threw. The network's answers (does the handshake succeed, does the peer
  acknowledge a close) are parameters.
 */
module Lifecycle {

  /** WebSocketState, in the order the .NET enumeration declares it.
      `Unopened` is the enumeration's `None`: constructed, never connected. */
  datatype SocketState = Unopened | Connecting | Open | CloseSent | CloseReceived | Closed | Aborted

  /** A ClientWebSocket instance. `disposed` records only the client's own
      calls to Dispose; the runtime may dispose a socket itself, for instance
      when its opening handshake fails, which changes nothing here since
      disposing twice is harmless. */
  datatype Socket = Socket(id: nat, state: SocketState, disposed: bool)

  /** A CancellationTokenSource instance. `cancelRequested` records that
      CancelAfter has been called on it. */
  datatype TokenSource = TokenSource(id: nat, cancelRequested: bool, disposed: bool)

  /** A reference field that may hold null. */
  datatype Nullable<T> = Null | Ref(obj: T)

  /** The client's two private fields, and the next fresh handle identity. */
  datatype Client = Client(ws: Nullable<Socket>, cts: Nullable<TokenSource>, nextId: nat)

  /** A newly constructed client: both fields null. */
  const Initial := Client(Null, Null, 0)

  /** The delay handed to CancelAfter when disconnecting an open socket. */
  const GracePeriodSeconds := 2

  /** What a call does outside the client's own fields, in order. */
  datatype Effect =
    | CreateSocket(socket: nat)
    | DisposeSocket(socket: nat)
    | CreateSource(source: nat)
    | DisposeSource(source: nat)
    | Handshake(socket: nat, url: string)
    | StartReceiveLoop(socket: nat, source: nat)
    | CancelAfter(source: nat, seconds: nat)
    | CloseOutput(socket: nat)
    | CloseHandshake(socket: nat)

  /** The exceptions a call can end with. */
  datatype Error =
    | InvalidUrl       // the Uri constructor rejects the address
    | ConnectionError  // the opening handshake fails
    | CloseError       // the closing handshake fails
    | NullReference    // a null field is dereferenced
    | ObjectDisposed   // CancelAfter on a disposed token source

  datatype Outcome = Completed | Threw(error: Error)

  /** The client after a call, the effects of the call, and its outcome. */
  datatype Step = Step(client: Client, effects: seq<Effect>, outcome: Outcome)

  /** What happens when ConnectAsync builds the address and opens the socket. */
  datatype HandshakeResult = Accepted | Refused | Malformed

  /** What the peer does with a close request. An unresponsive peer never
      acknowledges it. The close calls are not given the client's token, so
      they fail only through the receive loop: `Unresponsive` is the case in
      which the loop is waiting inside ReceiveAsync when the grace period
      ends, so that the token firing aborts the socket and the close call
      throws. Otherwise the close call would wait forever, which is not a
      modelled outcome. */
  datatype PeerResponse = Acknowledged | Unresponsive

  /** The socket holds an open connection. */
  predicate IsOpen(c: Client)
  {
    c.ws.Ref? && c.ws.obj.state == Open
  }

  /** Disposing a socket: it reports Closed afterwards, unless it had aborted. */
  function DisposeOf(s: Socket): (r: Socket)
  {
    Socket(s.id, if s.state == Aborted then Aborted else Closed, true)
  }

  /** The number of receive loops a list of effects starts. */
  function LoopsStarted(es: seq<Effect>): (r: nat)
  {
    if |es| == 0 then 0
    else LoopsStarted(es[..|es| - 1]) + (if es[|es| - 1].StartReceiveLoop? then 1 else 0)
  }

  /** Counting loops distributes over concatenation. */
  lemma {:induction false} LoopsStartedAppend(a: seq<Effect>, b: seq<Effect>)
    ensures LoopsStarted(a + b) == LoopsStarted(a) + LoopsStarted(b)
    decreases |b|
  {
    if |b| == 0 {
      assert a + b == a;
    } else {
      assert (a + b)[..|a + b| - 1] == a + b[..|b| - 1];
      LoopsStartedAppend(a, b[..|b| - 1]);
    }
  }

  /** Effects none of which starts a loop start no loop. */
  lemma {:induction false} NoLoopsStarted(es: seq<Effect>)
    requires forall e :: e in es ==> !e.StartReceiveLoop?
    ensures LoopsStarted(es) == 0
    decreases |es|
  {
    if |es| > 0 {
      assert es[|es| - 1] in es;
      NoLoopsStarted(es[..|es| - 1]);
    }
  }

  /** Whether any effect in `es` creates a handle. */
  predicate CreatesNothing(es: seq<Effect>)
  {
    forall e :: e in es ==> !e.CreateSocket? && !e.CreateSource?
  }

  /** The effects that dispose whichever of the fields are set. */
  function DisposeSocketIfSet(ws: Nullable<Socket>): (r: seq<Effect>)
    ensures forall e :: e in r ==> e.DisposeSocket?
  {
    if ws.Ref? then [DisposeSocket(ws.obj.id)] else []
  }

  function DisposeSourceIfSet(cts: Nullable<TokenSource>): (r: seq<Effect>)
    ensures forall e :: e in r ==> e.DisposeSource?
  {
    if cts.Ref? then [DisposeSource(cts.obj.id)] else []
  }

  /** The first half of a reconnection: dispose the old socket, create the
      next one, dispose the old token source, create the next one. */
  function Install(c: Client): (r: seq<Effect>)
    ensures var w := if c.ws.Ref? then 1 else 0;
      && |r| == w + 2 + (if c.cts.Ref? then 1 else 0)
      && (c.ws.Ref? ==> r[0] == DisposeSocket(c.ws.obj.id))
      && r[w] == CreateSocket(c.nextId)
      && (c.cts.Ref? ==> r[w + 1] == DisposeSource(c.cts.obj.id))
      && r[|r| - 1] == CreateSource(c.nextId + 1)
    ensures forall e :: e in r ==> !e.StartReceiveLoop?
    ensures forall e :: e in r && e.CreateSocket? ==> e.socket == c.nextId
    ensures forall e :: e in r && e.CreateSource? ==> e.source == c.nextId + 1
    ensures c.ws.Ref? ==> DisposeSocket(c.ws.obj.id) in r
    ensures c.cts.Ref? ==> DisposeSource(c.cts.obj.id) in r
  {
    DisposeSocketIfSet(c.ws) + [CreateSocket(c.nextId)] + DisposeSourceIfSet(c.cts) + [CreateSource(c.nextId + 1)]
  }

  /** The handles a reconnection installs: a socket and a token source with
      the next two identities, neither disposed nor cancelled. */
  predicate InstallsFresh(c: Client, r: Step)
  {
    && r.client.ws.Ref? && r.client.ws.obj.id == c.nextId && !r.client.ws.obj.disposed
    && r.client.cts.Ref? && r.client.cts.obj.id == c.nextId + 1
    && !r.client.cts.obj.cancelRequested && !r.client.cts.obj.disposed
    && r.client.nextId == c.nextId + 2
  }

  /** A reconnection's effects, and nothing else: the old handles are
      replaced first, then the opening handshake is attempted unless the
      address does not parse, and the receive loop is started last, after a
      successful handshake only. */
  predicate ReconnectOrder(c: Client, url: string, handshake: HandshakeResult, es: seq<Effect>)
  {
    && (handshake == Malformed ==> es == Install(c))
    && (handshake == Refused ==> es == Install(c) + [Handshake(c.nextId, url)])
    && (handshake == Accepted ==>
      es == Install(c) + [Handshake(c.nextId, url), StartReceiveLoop(c.nextId, c.nextId + 1)])
  }

  /** The effects start receive loops only on the handles a reconnection of
      `c` creates, and create only those handles. */
  predicate UsesFreshHandles(c: Client, es: seq<Effect>)
  {
    && (forall e :: e in es && e.StartReceiveLoop? ==> e == StartReceiveLoop(c.nextId, c.nextId + 1))
    && (forall e :: e in es && e.CreateSocket? ==> e.socket == c.nextId)
    && (forall e :: e in es && e.CreateSource? ==> e.source == c.nextId + 1)
  }

  /** The effects of a reconnection, in order: replace the old handles,
      attempt the opening handshake if the address parses, and start the
      receive loop on the new handles if the handshake succeeds. */
  function ReconnectEffects(c: Client, url: string, handshake: HandshakeResult): (r: seq<Effect>)
    ensures ReconnectOrder(c, url, handshake, r)
    ensures c.ws.Ref? ==> DisposeSocket(c.ws.obj.id) in r
    ensures c.cts.Ref? ==> DisposeSource(c.cts.obj.id) in r
    ensures LoopsStarted(r) == (if handshake == Accepted then 1 else 0)
    ensures UsesFreshHandles(c, r)
  {
    var installed := Install(c);
    var handshaken := installed + [Handshake(c.nextId, url)];
    var started := handshaken + [StartReceiveLoop(c.nextId, c.nextId + 1)];
    NoLoopsStarted(installed);
    NoLoopsStarted(handshaken);
    LoopsStartedAppend(handshaken, [StartReceiveLoop(c.nextId, c.nextId + 1)]);
    assert handshaken[..|installed|] == installed;
    assert started[..|installed|] == installed;
    match handshake
    case Malformed => installed
    case Refused => handshaken
    case Accepted => started
  }

  /** The part of ConnectAsync past the open-socket check: dispose the old
      socket, create a new one, dispose the old token source, create a new
      one, parse the address, open the socket and start one receive loop
      bound to the new source's token. A failure leaves the new, unopened
      handles in place and starts no loop. */
  function Reconnect(c: Client, url: string, handshake: HandshakeResult): (r: Step)
    ensures InstallsFresh(c, r)
    ensures IsOpen(r.client) <==> handshake == Accepted
    ensures r.outcome == (match handshake
      case Accepted => Completed
      case Refused => Threw(ConnectionError)
      case Malformed => Threw(InvalidUrl))
    ensures ReconnectOrder(c, url, handshake, r.effects)
    ensures c.ws.Ref? ==> DisposeSocket(c.ws.obj.id) in r.effects
    ensures c.cts.Ref? ==> DisposeSource(c.cts.obj.id) in r.effects
    ensures LoopsStarted(r.effects) == (if handshake == Accepted then 1 else 0)
    ensures UsesFreshHandles(c, r.effects)
  {
    var cts := Ref(TokenSource(c.nextId + 1, false, false));
    var effects := ReconnectEffects(c, url, handshake);
    match handshake
    case Malformed =>
      Step(Client(Ref(Socket(c.nextId, Unopened, false)), cts, c.nextId + 2), effects, Threw(InvalidUrl))
    case Refused =>
      Step(Client(Ref(Socket(c.nextId, Closed, false)), cts, c.nextId + 2), effects, Threw(ConnectionError))
    case Accepted =>
      Step(Client(Ref(Socket(c.nextId, Open, false)), cts, c.nextId + 2), effects, Completed)
  }

  /** ConnectAsync(url): nothing if the socket is open; otherwise a
      reconnection. */
  function Connect(c: Client, url: string, handshake: HandshakeResult): (r: Step)
    ensures IsOpen(c) ==> r.client == c && r.effects == [] && r.outcome == Completed
    ensures !IsOpen(c) ==>
      && InstallsFresh(c, r)
      && (IsOpen(r.client) <==> handshake == Accepted)
      && r.outcome == (match handshake
        case Accepted => Completed
        case Refused => Threw(ConnectionError)
        case Malformed => Threw(InvalidUrl))
      && ReconnectOrder(c, url, handshake, r.effects)
      && (c.ws.Ref? ==> DisposeSocket(c.ws.obj.id) in r.effects)
      && (c.cts.Ref? ==> DisposeSource(c.cts.obj.id) in r.effects)
    ensures LoopsStarted(r.effects) == (if !IsOpen(c) && handshake == Accepted then 1 else 0)
    ensures UsesFreshHandles(c, r.effects)
  {
    if IsOpen(c) then
      Step(c, [], Completed)
    else
      Reconnect(c, url, handshake)
  }

  /** What every disconnect keeps: each field stays set or null as it was,
      on the same handle, and nothing is created or started. */
  predicate KeepsHandles(c: Client, r: Step)
  {
    && r.client.nextId == c.nextId
    && r.client.ws.Ref? == c.ws.Ref? && r.client.cts.Ref? == c.cts.Ref?
    && (r.client.ws.Ref? ==> r.client.ws.obj.id == c.ws.obj.id)
    && (r.client.cts.Ref? ==> r.client.cts.obj.id == c.cts.obj.id)
    && CreatesNothing(r.effects)
    && forall e :: e in r.effects ==> !e.StartReceiveLoop?
  }

  /** Disconnecting an open socket. A null or disposed token source throws
      at CancelAfter before anything happens. Otherwise cancellation is
      requested, the output is closed and the closing handshake run, in that
      order; an acknowledging peer lets the socket close and both handles
      are then disposed, last; an unresponsive one leaves the socket aborted,
      the call throws, and nothing is disposed. */
  predicate ClosingEffects(c: Client, peer: PeerResponse, r: Step)
    requires IsOpen(c)
  {
    match c.cts
    case Null => r.client == c && r.effects == [] && r.outcome == Threw(NullReference)
    case Ref(t) =>
      if t.disposed then
        r.client == c && r.effects == [] && r.outcome == Threw(ObjectDisposed)
      else
        && |r.effects| >= 3
        && r.effects[..3] == [CancelAfter(t.id, GracePeriodSeconds), CloseOutput(c.ws.obj.id), CloseHandshake(c.ws.obj.id)]
        && r.client.ws.Ref? && r.client.cts.Ref? && r.client.cts.obj.cancelRequested
        && (r.outcome == Threw(CloseError) <==> peer == Unresponsive)
        && (peer == Unresponsive ==>
          && r.effects == [CancelAfter(t.id, GracePeriodSeconds), CloseOutput(c.ws.obj.id), CloseHandshake(c.ws.obj.id)]
          && r.client.ws.obj.state == Aborted
          && r.client.ws.obj.disposed == c.ws.obj.disposed
          && r.client.cts.obj.disposed == t.disposed
          && forall e :: e in r.effects ==> !e.DisposeSocket? && !e.DisposeSource?)
        && (peer == Acknowledged ==>
          && r.outcome == Completed
          && |r.effects| == 5
          && r.client.ws.obj.state == Closed
          && r.effects[|r.effects| - 2..] == [DisposeSocket(c.ws.obj.id), DisposeSource(t.id)]
          && r.client.ws.obj.disposed && r.client.cts.obj.disposed)
  }

  /** Disconnecting a socket that is not open: no cancellation and no close
      call, only the disposals, the socket's first. A null token source
      throws at its disposal. */
  predicate ReleaseEffects(c: Client, r: Step)
    requires c.ws.Ref? && !IsOpen(c)
  {
    && r.client.ws.Ref? && r.client.ws.obj.disposed
    && r.client.ws.obj.state == (if c.ws.obj.state == Aborted then Aborted else Closed)
    && r.effects == [DisposeSocket(c.ws.obj.id)] + DisposeSourceIfSet(c.cts)
    && r.outcome == (if c.cts.Null? then Threw(NullReference) else Completed)
    && (c.cts.Ref? ==>
      && r.client.cts.Ref? && r.client.cts.obj.disposed
      && r.client.cts.obj.cancelRequested == c.cts.obj.cancelRequested)
  }

  /** What DisconnectAsync guarantees whatever path it takes: an open
      socket stays open only if the call threw; cancellation is requested
      exactly when the socket was open and the token source usable; a
      completed call on a socket ends by disposing both handles; and the
      close error is raised exactly when the closing handshake meets an
      unresponsive peer, leaving the socket aborted and nothing disposed. */
  predicate DisconnectSummary(c: Client, peer: PeerResponse, r: Step)
  {
    && (!IsOpen(r.client) || r.outcome.Threw?)
    && (r.client.cts.Ref? && c.cts.Ref? ==>
      (r.client.cts.obj.cancelRequested <==> c.cts.obj.cancelRequested || (IsOpen(c) && !c.cts.obj.disposed)))
    && (c.ws.Ref? && r.outcome == Completed ==>
      && c.cts.Ref? && |r.effects| >= 2
      && r.effects[|r.effects| - 2..] == [DisposeSocket(c.ws.obj.id), DisposeSource(c.cts.obj.id)]
      && r.client.ws.Ref? && r.client.cts.Ref?
      && r.client.ws.obj.disposed && r.client.cts.obj.disposed)
    && (r.outcome == Threw(CloseError) <==>
      IsOpen(c) && c.cts.Ref? && !c.cts.obj.disposed && peer == Unresponsive)
    && (r.outcome == Threw(CloseError) ==>
      && r.client.ws.Ref? && r.client.ws.obj.state == Aborted
      && forall e :: e in r.effects ==> !e.DisposeSocket? && !e.DisposeSource?)
  }

  /** The open-socket branch of DisconnectAsync. */
  function CloseOpen(c: Client, peer: PeerResponse): (r: Step)
    requires IsOpen(c)
    ensures KeepsHandles(c, r) && ClosingEffects(c, peer, r)
    ensures DisconnectSummary(c, peer, r)
  {
    var s := c.ws.obj;
    match c.cts
    case Null => Step(c, [], Threw(NullReference))
    case Ref(t) =>
      if t.disposed then
        Step(c, [], Threw(ObjectDisposed))
      else
        var t' := t.(cancelRequested := true);
        var closing := [CancelAfter(t.id, GracePeriodSeconds), CloseOutput(s.id), CloseHandshake(s.id)];
        var released := closing + [DisposeSocket(s.id), DisposeSource(t.id)];
        NoLoopsStarted(closing);
        NoLoopsStarted(released);
        match peer
        case Unresponsive =>
          Step(c.(ws := Ref(s.(state := Aborted)), cts := Ref(t')), closing, Threw(CloseError))
        case Acknowledged =>
          Step(c.(ws := Ref(DisposeOf(s.(state := Closed))), cts := Ref(t'.(disposed := true))),
               released, Completed)
  }

  /** The branch of DisconnectAsync for a socket that is not open. */
  function Release(c: Client, peer: PeerResponse): (r: Step)
    requires c.ws.Ref? && !IsOpen(c)
    ensures KeepsHandles(c, r) && ReleaseEffects(c, r)
    ensures DisconnectSummary(c, peer, r)
  {
    var s := c.ws.obj;
    var ws := Ref(DisposeOf(s));
    match c.cts
    case Null => Step(c.(ws := ws), [DisposeSocket(s.id)], Threw(NullReference))
    case Ref(t) =>
      NoLoopsStarted([DisposeSocket(s.id), DisposeSource(t.id)]);
      Step(c.(ws := ws, cts := Ref(t.(disposed := true))),
           [DisposeSocket(s.id), DisposeSource(t.id)], Completed)
  }

  /** DisconnectAsync(): nothing without a socket. With an open socket,
      schedule cancellation of the loop's token after the grace period and
      run the closing handshake; then, whatever the socket's state, dispose
      the socket and the token source. Neither field is reset to null. The
      close calls are not guarded, so when the closing handshake fails the
      call throws before anything is disposed. */
  function Disconnect(c: Client, peer: PeerResponse): (r: Step)
    ensures c.ws.Null? ==> r.client == c && r.effects == [] && r.outcome == Completed
    ensures KeepsHandles(c, r)
    ensures IsOpen(c) ==> ClosingEffects(c, peer, r)
    ensures c.ws.Ref? && !IsOpen(c) ==> ReleaseEffects(c, r)
    ensures DisconnectSummary(c, peer, r)
  {
    match c.ws
    case Null => Step(c, [], Completed)
    case Ref(s) =>
      if s.state == Open then CloseOpen(c, peer) else Release(c, peer)
  }

  /** Changes the socket undergoes outside any call of the client: the
      receive loop reads the peer's close, which leaves the socket in
      CloseReceived and ends the loop, or the connection fails underneath it
      and the socket aborts. */
  datatype PeerEvent = CloseArrives | ConnectionLost

  /** The client after a peer event: only an open socket changes state, and
      nothing is created, disposed or replaced. */
  function Interrupt(c: Client, e: PeerEvent): (r: Client)
    ensures r.nextId == c.nextId && r.cts == c.cts
    ensures r.ws.Ref? == c.ws.Ref?
    ensures r.ws.Ref? ==> r.ws.obj.id == c.ws.obj.id && r.ws.obj.disposed == c.ws.obj.disposed
    ensures !IsOpen(c) ==> r == c
    ensures IsOpen(c) ==> r.ws.obj.state == (if e == CloseArrives then CloseReceived else Aborted)
    ensures !IsOpen(r)
  {
    if IsOpen(c) then
      c.(ws := Ref(c.ws.obj.(state := if e == CloseArrives then CloseReceived else Aborted)))
    else
      c
  }

  /** Dispose(): DisconnectAsync run to completion on the caller's thread. */
  function Dispose(c: Client, peer: PeerResponse): (r: Step)
    ensures r == Disconnect(c, peer)
    ensures c.ws.Null? ==> r.client == c && r.effects == [] && r.outcome == Completed
    ensures c.ws.Ref? && r.outcome == Completed ==>
      && c.cts.Ref? && r.client.ws.Ref? && r.client.cts.Ref?
      && r.client.ws.obj.disposed && r.client.cts.obj.disposed
      && DisposeSocket(c.ws.obj.id) in r.effects && DisposeSource(c.cts.obj.id) in r.effects
    ensures CreatesNothing(r.effects) && LoopsStarted(r.effects) == 0
  {
    var r := Disconnect(c, peer);
    NoLoopsStarted(r.effects);
    r
  }
}
