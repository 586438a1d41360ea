/**
  What the connection bookkeeping guarantees over single calls and over any
  sequence of calls from a newly constructed client.
 */
module LifecycleProperties {
  import opened Lifecycle

  /** The states every reachable client is in: a socket exactly when a token
      source, both older than the next fresh identity, disposed together, and
      an open socket neither disposed nor marked for cancellation. */
  predicate Valid(c: Client)
  {
    && (c.ws.Ref? <==> c.cts.Ref?)
    && (c.ws.Ref? ==>
      && c.ws.obj.id < c.nextId && c.cts.obj.id < c.nextId
      && c.ws.obj.disposed == c.cts.obj.disposed
      && (c.ws.obj.disposed ==> c.ws.obj.state != Open)
      && (c.cts.obj.cancelRequested ==> c.ws.obj.state != Open))
  }

  /** The two faults that only a broken client can raise. */
  predicate Misuse(o: Outcome)
  {
    o == Threw(NullReference) || o == Threw(ObjectDisposed)
  }

  lemma InitialValid()
    ensures Valid(Initial)
  {
  }

  /** ConnectAsync keeps the client valid and never dereferences a null or
      disposed handle. */
  lemma ConnectPreservesValid(c: Client, url: string, handshake: HandshakeResult)
    requires Valid(c)
    ensures Valid(Connect(c, url, handshake).client)
    ensures !Misuse(Connect(c, url, handshake).outcome)
  {
  }

  /** DisconnectAsync keeps the client valid and, on a valid client, never
      dereferences a null or disposed handle: the only exception it can end
      with is a failed closing handshake. */
  lemma DisconnectPreservesValid(c: Client, peer: PeerResponse)
    requires Valid(c)
    ensures Valid(Disconnect(c, peer).client)
    ensures Disconnect(c, peer).outcome.Threw? ==> Disconnect(c, peer).outcome == Threw(CloseError)
  {
  }

  /** The channel seen only as connected or not. */
  datatype Status = Disconnected | Connected

  function StatusOf(c: Client): (r: Status)
  {
    if IsOpen(c) then Connected else Disconnected
  }

  /** The channel's two-state view: Connect from Disconnected reaches
      Connected exactly when the handshake succeeds and otherwise reports the
      failure; Connect on a connected channel stays connected; Disconnect
      always ends Disconnected, whether or not the peer acknowledges. */
  lemma StatusTransitions(c: Client, url: string, handshake: HandshakeResult, peer: PeerResponse)
    requires Valid(c)
    ensures StatusOf(Connect(c, url, handshake).client) ==
      (if StatusOf(c) == Connected || handshake == Accepted then Connected else Disconnected)
    ensures StatusOf(c) == Disconnected && handshake != Accepted ==> Connect(c, url, handshake).outcome.Threw?
    ensures StatusOf(Disconnect(c, peer).client) == Disconnected
  {
  }

  /** A second ConnectAsync after a successful one does nothing, so two
      calls start one receive loop between them. */
  lemma ConnectTwice(c: Client, url1: string, url2: string, handshake: HandshakeResult)
    ensures var first := Connect(c, url1, Accepted);
      var second := Connect(first.client, url2, handshake);
      && second.client == first.client
      && second.effects == []
      && LoopsStarted(first.effects + second.effects) <= 1
  {
    var first := Connect(c, url1, Accepted);
    assert first.effects + [] == first.effects;
  }

  /** A second DisconnectAsync after one that completed changes nothing in
      the client; it only disposes the same two handles again. */
  lemma DisconnectTwice(c: Client, peer1: PeerResponse, peer2: PeerResponse)
    requires Valid(c) && c.ws.Ref? && Disconnect(c, peer1).outcome == Completed
    ensures var first := Disconnect(c, peer1);
      var second := Disconnect(first.client, peer2);
      && second.client == first.client
      && second.outcome == Completed
      && second.effects == [DisposeSocket(c.ws.obj.id), DisposeSource(c.cts.obj.id)]
  {
  }

  /** After a disconnect that leaves the socket not open (every completed
      one does, and so does one that meets an unresponsive peer), connecting
      again installs a fresh socket and token source and, if the handshake
      succeeds, starts one loop bound to them. */
  lemma ReconnectAfterDisconnect(c: Client, peer: PeerResponse, url: string)
    requires Valid(c) && !IsOpen(Disconnect(c, peer).client)
    ensures var d := Disconnect(c, peer).client;
      var r := Connect(d, url, Accepted);
      && IsOpen(r.client)
      && (c.ws.Ref? ==> r.client.ws.obj.id != c.ws.obj.id && r.client.cts.obj.id != c.cts.obj.id)
      && LoopsStarted(r.effects) == 1
      && StartReceiveLoop(r.client.ws.obj.id, r.client.cts.obj.id) in r.effects
  {
  }

  /** The peer closing, or the connection failing, between calls keeps the
      client valid. */
  lemma InterruptPreservesValid(c: Client, e: PeerEvent)
    requires Valid(c)
    ensures Valid(Interrupt(c, e))
  {
  }

  /** Once the peer has closed or the connection has failed, the socket is
      no longer open: ConnectAsync replaces both handles instead of
      returning early, and DisconnectAsync skips the close calls and only
      disposes the handles. */
  lemma AfterPeerEvent(c: Client, e: PeerEvent, url: string, peer: PeerResponse)
    requires Valid(c) && IsOpen(c)
    ensures var d := Interrupt(c, e);
      var reconnected := Connect(d, url, Accepted);
      var released := Disconnect(d, peer);
      && IsOpen(reconnected.client)
      && reconnected.client.ws.obj.id != c.ws.obj.id && reconnected.client.cts.obj.id != c.cts.obj.id
      && LoopsStarted(reconnected.effects) == 1
      && DisposeSocket(c.ws.obj.id) in reconnected.effects && DisposeSource(c.cts.obj.id) in reconnected.effects
      && released.outcome == Completed
      && released.effects == [DisposeSocket(c.ws.obj.id), DisposeSource(c.cts.obj.id)]
  {
  }

  /** One step of a client's life: a call the owner makes, or a change the
      socket undergoes on its own between calls. */
  datatype Call =
    | ConnectCall(url: string, handshake: HandshakeResult)
    | DisconnectCall(peer: PeerResponse)
    | DisposeCall(peer: PeerResponse)
    | Happens(event: PeerEvent)

  function Apply(c: Client, call: Call): (r: Step)
  {
    match call
    case ConnectCall(url, handshake) => Connect(c, url, handshake)
    case DisconnectCall(peer) => Disconnect(c, peer)
    case DisposeCall(peer) => Dispose(c, peer)
    case Happens(e) => Step(Interrupt(c, e), [], Completed)
  }

  /** The steps one after another; a call that throws is caught by the
      owner, who carries on. */
  datatype Trace = Trace(client: Client, log: seq<Effect>, outcomes: seq<Outcome>)

  function Run(c: Client, calls: seq<Call>): (r: Trace)
    ensures |r.outcomes| == |calls|
    decreases |calls|
  {
    if |calls| == 0 then
      Trace(c, [], [])
    else
      var s := Apply(c, calls[0]);
      var t := Run(s.client, calls[1..]);
      Trace(t.client, s.effects + t.log, [s.outcome] + t.outcomes)
  }

  /** Every step keeps the client valid and raises no misuse fault. */
  lemma ApplyPreservesValid(c: Client, call: Call)
    requires Valid(c)
    ensures Valid(Apply(c, call).client)
    ensures !Misuse(Apply(c, call).outcome)
  {
    match call
    case ConnectCall(url, handshake) => ConnectPreservesValid(c, url, handshake);
    case DisconnectCall(peer) => DisconnectPreservesValid(c, peer);
    case DisposeCall(peer) => DisconnectPreservesValid(c, peer);
    case Happens(e) => InterruptPreservesValid(c, e);
  }

  /** Any sequence of calls from a valid client keeps it valid and never
      raises a null or disposed dereference. */
  lemma {:induction false} RunPreservesValid(c: Client, calls: seq<Call>)
    requires Valid(c)
    ensures Valid(Run(c, calls).client)
    ensures forall n :: 0 <= n < |calls| ==> !Misuse(Run(c, calls).outcomes[n])
    decreases |calls|
  {
    if |calls| > 0 {
      var s := Apply(c, calls[0]);
      ApplyPreservesValid(c, calls[0]);
      RunPreservesValid(s.client, calls[1..]);
      var t := Run(s.client, calls[1..]);
      forall n | 0 <= n < |calls|
        ensures !Misuse(Run(c, calls).outcomes[n])
      {
        if n > 0 {
          assert Run(c, calls).outcomes[n] == t.outcomes[n - 1];
        }
      }
    }
  }

  /** Every loop started in `log` is bound to a token source with a larger
      identity than any loop started before it. */
  predicate LoopSourcesIncrease(log: seq<Effect>)
  {
    forall i, j :: 0 <= i < j < |log| && log[i].StartReceiveLoop? && log[j].StartReceiveLoop? ==>
      log[i].source < log[j].source
  }

  /** Every loop started in `log` uses a source of identity at least `n`. */
  predicate LoopSourcesFrom(log: seq<Effect>, n: nat)
  {
    forall e :: e in log && e.StartReceiveLoop? ==> e.source >= n
  }

  lemma LoopSourcesConcat(a: seq<Effect>, b: seq<Effect>, n: nat)
    requires LoopSourcesIncrease(a) && LoopSourcesIncrease(b)
    requires forall e :: e in a && e.StartReceiveLoop? ==> e.source < n
    requires LoopSourcesFrom(b, n)
    ensures LoopSourcesIncrease(a + b)
  {
    var ab := a + b;
    forall i, j | 0 <= i < j < |ab| && ab[i].StartReceiveLoop? && ab[j].StartReceiveLoop?
      ensures ab[i].source < ab[j].source
    {
      if j < |a| {
      } else if i < |a| {
        assert ab[i] in a && ab[j] == b[j - |a|] && b[j - |a|] in b;
      } else {
        assert ab[i] == b[i - |a|] && ab[j] == b[j - |a|];
      }
    }
  }

  /** Two loop starts in a list count as two. */
  lemma {:induction false} LoopsStartedAtLeastTwo(es: seq<Effect>, i: int, j: int)
    requires 0 <= i < j < |es| && es[i].StartReceiveLoop? && es[j].StartReceiveLoop?
    ensures LoopsStarted(es) >= 2
  {
    assert es == es[..j] + es[j..];
    LoopsStartedAppend(es[..j], es[j..]);
    assert es[j..] == [es[j]] + es[j + 1..];
    LoopsStartedAppend([es[j]], es[j + 1..]);
    assert es[..j] == es[..i] + es[i..j];
    LoopsStartedAppend(es[..i], es[i..j]);
    assert es[i..j] == [es[i]] + es[i + 1..j];
    LoopsStartedAppend([es[i]], es[i + 1..j]);
  }

  /** A list that starts at most one loop has nothing to order. */
  lemma AtMostOneLoop(es: seq<Effect>)
    requires LoopsStarted(es) <= 1
    ensures LoopSourcesIncrease(es)
  {
    if !LoopSourcesIncrease(es) {
      var i, j :| 0 <= i < j < |es| && es[i].StartReceiveLoop? && es[j].StartReceiveLoop?
        && es[i].source >= es[j].source;
      LoopsStartedAtLeastTwo(es, i, j);
      assert false;
    }
  }

  /** One call starts loops only on the source it creates, which is fresh,
      and never lowers the next fresh identity. */
  lemma ApplyLoopSources(c: Client, call: Call)
    ensures Apply(c, call).client.nextId >= c.nextId
    ensures LoopSourcesIncrease(Apply(c, call).effects)
    ensures forall e :: e in Apply(c, call).effects && e.StartReceiveLoop? ==>
      e.source == c.nextId + 1 && Apply(c, call).client.nextId == c.nextId + 2
  {
    var s := Apply(c, call);
    match call
    case ConnectCall(url, handshake) =>
      assert s == Connect(c, url, handshake);
      AtMostOneLoop(s.effects);
    case DisconnectCall(peer) =>
      assert s == Disconnect(c, peer);
    case DisposeCall(peer) =>
      assert s == Disconnect(c, peer);
    case Happens(e) =>
  }

  /** Over any sequence of calls, each receive loop is bound to its own
      token source, created for it after every earlier loop's source: no
      loop ever shares a cancellation context with another. */
  lemma {:induction false} FreshSourcePerLoop(c: Client, calls: seq<Call>)
    ensures LoopSourcesIncrease(Run(c, calls).log)
    ensures LoopSourcesFrom(Run(c, calls).log, c.nextId)
    decreases |calls|
  {
    if |calls| > 0 {
      var s := Apply(c, calls[0]);
      var t := Run(s.client, calls[1..]);
      ApplyLoopSources(c, calls[0]);
      FreshSourcePerLoop(s.client, calls[1..]);
      var started := exists e :: e in s.effects && e.StartReceiveLoop?;
      var n := if started then c.nextId + 2 else s.client.nextId;
      assert LoopSourcesFrom(t.log, n);
      LoopSourcesConcat(s.effects, t.log, n);
    }
  }

  /** The identity of the socket a client holds, if any. */
  function HeldSocket(c: Client): (r: set<nat>)
  {
    if c.ws.Ref? then {c.ws.obj.id} else {}
  }

  function HeldSource(c: Client): (r: set<nat>)
  {
    if c.cts.Ref? then {c.cts.obj.id} else {}
  }

  /** After `log`, every socket and token source that was held at the start
      or created along the way, and is no longer held, has been disposed. */
  ghost predicate ReleasedAllBut(start: Client, log: seq<Effect>, final: Client)
  {
    && (forall id :: (CreateSocket(id) in log || id in HeldSocket(start)) && id !in HeldSocket(final) ==>
      DisposeSocket(id) in log)
    && (forall id :: (CreateSource(id) in log || id in HeldSource(start)) && id !in HeldSource(final) ==>
      DisposeSource(id) in log)
  }

  /** One call releases what it stops holding. */
  lemma ApplyReleases(c: Client, call: Call)
    ensures ReleasedAllBut(c, Apply(c, call).effects, Apply(c, call).client)
  {
    match call
    case ConnectCall(url, handshake) => ConnectReleases(c, url, handshake);
    case DisconnectCall(peer) => DisconnectReleases(c, peer);
    case DisposeCall(peer) => DisconnectReleases(c, peer);
    case Happens(e) =>
  }

  /** ConnectAsync disposes the handles it replaces. */
  lemma ConnectReleases(c: Client, url: string, handshake: HandshakeResult)
    ensures ReleasedAllBut(c, Connect(c, url, handshake).effects, Connect(c, url, handshake).client)
  {
    var r := Connect(c, url, handshake);
    if !IsOpen(c) {
      assert HeldSocket(r.client) == {c.nextId} && HeldSource(r.client) == {c.nextId + 1};
      forall id | (CreateSocket(id) in r.effects || id in HeldSocket(c)) && id !in HeldSocket(r.client)
        ensures DisposeSocket(id) in r.effects
      {
        assert id == c.ws.obj.id;
      }
      forall id | (CreateSource(id) in r.effects || id in HeldSource(c)) && id !in HeldSource(r.client)
        ensures DisposeSource(id) in r.effects
      {
        assert id == c.cts.obj.id;
      }
    }
  }

  /** DisconnectAsync replaces no handle and creates none. */
  lemma DisconnectReleases(c: Client, peer: PeerResponse)
    ensures ReleasedAllBut(c, Disconnect(c, peer).effects, Disconnect(c, peer).client)
  {
  }

  /** Over any sequence of calls, a socket or token source is only ever
      dropped after being disposed: the only handles left undisposed are the
      ones the client still holds. */
  lemma {:induction false} ReplacedHandlesAreDisposed(c: Client, calls: seq<Call>)
    ensures ReleasedAllBut(c, Run(c, calls).log, Run(c, calls).client)
    decreases |calls|
  {
    if |calls| > 0 {
      var s := Apply(c, calls[0]);
      var t := Run(s.client, calls[1..]);
      ApplyReleases(c, calls[0]);
      ReplacedHandlesAreDisposed(s.client, calls[1..]);
      assert Run(c, calls).log == s.effects + t.log;
    }
  }
}
