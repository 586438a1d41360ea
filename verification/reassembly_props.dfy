/**
  What the receive loop promises about the messages it delivers: where each
  one comes from in the stream, that messages do not leak into each other,
  what a close does to a half-built message, what cancellation keeps, that
  neutral results are invisible, and that fragmenting messages and
  reassembling them gives them back.
 */
module ReassemblyProperties {
  import opened Frames
  import opened Reassembly

  function Min(a: int, b: int): (r: int)
  {
    if a <= b then a else b
  }

  lemma PrefixCons<X>(m: X, s: seq<X>, n: nat)
    requires n <= |s|
    ensures ([m] + s)[..n + 1] == [m] + s[..n]
  {
  }

  /** How a run ended, judged against the stream from position `at`, where
      the loop stood after its last delivery. */
  predicate EndsAt(fs: seq<Frame>, at: int, r: LoopRun)
    requires 0 <= at <= |fs|
  {
    match r.exit
    case Cancelled => r.consumed == at
    case PeerClosed =>
      IsMessageSpan(fs, at, r.consumed) && fs[r.consumed - 1].messageType == Close
    case Receiving(p) =>
      NoEndIn(fs, at, |fs|) && p == Flatten(fs[at..]) && r.consumed == |fs|
  }

  /** Message `n` is built from the results `b[n]..b[n+1]`, which run up to
      and including the first EndOfMessage after `b[n]` and do not end in a
      close result. */
  predicate DeliversSpan(fs: seq<Frame>, b: seq<int>, n: int, m: Message)
    requires 0 <= n && n + 1 < |b|
  {
    && IsMessageSpan(fs, b[n], b[n + 1])
    && fs[b[n + 1] - 1].messageType != Close
    && m == Flatten(fs[b[n]..b[n + 1]])
  }

  /** `b` cuts the stream from position `i` into the delivered messages, one
      span per message, and the run then stops as EndsAt describes. */
  predicate Segments(fs: seq<Frame>, i: int, r: LoopRun, b: seq<int>)
  {
    && |b| == |r.delivered| + 1
    && b[0] == i
    && (forall n :: 0 <= n < |r.delivered| ==> DeliversSpan(fs, b, n, r.delivered[n]))
    && 0 <= b[|b| - 1] <= |fs|
    && EndsAt(fs, b[|b| - 1], r)
  }

  /** A run that stops before delivering anything, judged from `i`. */
  lemma SegmentsStop(fs: seq<Frame>, i: nat, r: LoopRun)
    requires i <= |fs| && r.delivered == [] && EndsAt(fs, i, r)
    ensures Segments(fs, i, r, [i])
  {
  }

  /** One more delivered message in front of a segmented run. */
  lemma SegmentsCons(fs: seq<Frame>, i: nat, h: int, rest: LoopRun, b: seq<int>)
    requires IsMessageSpan(fs, i, h) && fs[h - 1].messageType != Close
    requires Segments(fs, h, rest, b)
    ensures Segments(fs, i, After([Flatten(fs[i..h])], rest), [i] + b)
  {
    var r := After([Flatten(fs[i..h])], rest);
    var b' := [i] + b;
    forall n | 0 <= n < |r.delivered|
      ensures DeliversSpan(fs, b', n, r.delivered[n])
    {
      if n > 0 {
        assert r.delivered[n] == rest.delivered[n - 1];
        assert DeliversSpan(fs, b, n - 1, rest.delivered[n - 1]);
      }
    }
  }

  /** Where the next message after `i` ends, when one does. */
  lemma NextMessage(fs: seq<Frame>, i: nat) returns (h: int)
    requires i <= |fs| && !NoEndIn(fs, i, |fs|)
    ensures IsMessageSpan(fs, i, h)
  {
    AssembleReadsFirstMessage(fs, i);
    h := AssembleFrom(fs, i).end;
  }

  /** The cut points of the loop's run from `i`. */
  lemma {:induction false} SegmentsOf(fs: seq<Frame>, i: nat, cancel: Cancellation) returns (b: seq<int>)
    requires i <= |fs|
    ensures Segments(fs, i, ReceiveLoopFrom(fs, i, cancel), b)
    decreases |fs| - i
  {
    var r := ReceiveLoopFrom(fs, i, cancel);
    b := [i];
    if cancel.Observed() {
      SegmentsStop(fs, i, r);
    } else if NoEndIn(fs, i, |fs|) {
      ReceiveLoopRunsOut(fs, i, cancel);
      SegmentsStop(fs, i, r);
    } else {
      var h := NextMessage(fs, i);
      ReceiveLoopTurn(fs, i, h, cancel);
      if fs[h - 1].messageType == Close {
        SegmentsStop(fs, i, r);
      } else {
        var rest := SegmentsOf(fs, h, cancel.Next());
        SegmentsCons(fs, i, h, ReceiveLoopFrom(fs, h, cancel.Next()), rest);
        b := [i] + rest;
      }
    }
  }

  /** Every delivered message is the in-order concatenation of the counted
      bytes of the non-close results read since the previous message, up to
      and including the first result flagged EndOfMessage, and the loop stops
      only on cancellation between messages, on a close-typed last result, or
      while still waiting for input. */
  lemma ReceiveLoopSegments(fs: seq<Frame>, i: nat, cancel: Cancellation)
    requires i <= |fs|
    ensures exists b :: Segments(fs, i, ReceiveLoopFrom(fs, i, cancel), b)
  {
    var b := SegmentsOf(fs, i, cancel);
  }

  /** The run after the first message of a run. */
  function Tail(run: LoopRun): (r: LoopRun)
    requires |run.delivered| > 0
  {
    LoopRun(run.delivered[1..], run.exit, run.consumed)
  }

  /** The first message of a segmented run. */
  lemma SegmentsHead(fs: seq<Frame>, i: nat, r: LoopRun, b: seq<int>)
    requires Segments(fs, i, r, b) && |r.delivered| > 0
    ensures IsMessageSpan(fs, i, b[1]) && fs[b[1] - 1].messageType != Close
    ensures r == After([Flatten(fs[i..b[1]])], Tail(r))
  {
    var m := r.delivered[0];
    assert DeliversSpan(fs, b, 0, m);
    assert m == Flatten(fs[i..b[1]]);
    assert r.delivered == [m] + Tail(r).delivered;
  }

  /** The run after the first message of a segmented run is segmented from
      where that message ends. */
  lemma SegmentsTail(fs: seq<Frame>, i: nat, r: LoopRun, b: seq<int>)
    requires Segments(fs, i, r, b) && |r.delivered| > 0
    ensures Segments(fs, b[1], Tail(r), b[1..])
  {
    var rest := Tail(r);
    forall n | 0 <= n < |rest.delivered|
      ensures DeliversSpan(fs, b[1..], n, rest.delivered[n])
    {
      assert DeliversSpan(fs, b, n + 1, r.delivered[n + 1]);
    }
  }

  /** A run that delivers nothing and ends as EndsAt says is the loop's run
      when the cancellation point agrees. */
  lemma EndsAtDeterminesRun(fs: seq<Frame>, i: nat, cancel: Cancellation, r: LoopRun)
    requires i <= |fs| && r.delivered == [] && EndsAt(fs, i, r)
    requires r.exit.Cancelled? <==> cancel.Observed()
    ensures r == ReceiveLoopFrom(fs, i, cancel)
  {
    match r.exit
    case Cancelled =>
    case PeerClosed =>
      ReceiveLoopTurn(fs, i, r.consumed, cancel);
    case Receiving(p) =>
      ReceiveLoopRunsOut(fs, i, cancel);
  }

  /** The converse: a run that cuts the stream as Segments describes and
      stops exactly when the cancellation point is reached is the loop's run.
      Segments together with the cancellation count therefore define the
      loop. */
  lemma {:induction false} SegmentsDetermineRun(fs: seq<Frame>, i: nat, cancel: Cancellation, r: LoopRun, b: seq<int>)
    requires i <= |fs| && Segments(fs, i, r, b)
    requires cancel.AfterMessages? ==> |r.delivered| <= cancel.k
    requires r.exit.Cancelled? <==> cancel.AfterMessages? && |r.delivered| == cancel.k
    ensures r == ReceiveLoopFrom(fs, i, cancel)
    decreases |r.delivered|
  {
    if |r.delivered| == 0 {
      EndsAtDeterminesRun(fs, i, cancel, r);
    } else {
      SegmentsHead(fs, i, r, b);
      SegmentsTail(fs, i, r, b);
      assert cancel.AfterMessages? ==> cancel.Next() == AfterMessages(cancel.k - 1);
      SegmentsDetermineRun(fs, b[1], cancel.Next(), Tail(r), b[1..]);
      ReceiveLoopTurn(fs, i, b[1], cancel);
    }
  }

  /** An assembly over a stream with `a` in front, `|a|` results later. */
  function ShiftAssembly(x: Assembly, d: nat): (r: Assembly)
  {
    match x
    case Complete(body, end) => Complete(body, end + d)
    case Incomplete(partial) => x
  }

  /** A run over a stream with `d` results in front of it. */
  function ShiftRun(run: LoopRun, d: nat): (r: LoopRun)
  {
    run.(consumed := run.consumed + d)
  }

  /** Assembly depends only on the results it reads, not on what precedes. */
  lemma {:induction false} AssembleShift(a: seq<Frame>, b: seq<Frame>, i: nat)
    requires i <= |b|
    ensures AssembleFrom(a + b, |a| + i) == ShiftAssembly(AssembleFrom(b, i), |a|)
    decreases |b| - i
  {
    if i < |b| {
      assert (a + b)[|a| + i] == b[i];
      if !b[i].endOfMessage {
        AssembleShift(a, b, i + 1);
      }
    }
  }

  /** The loop's run from a position depends only on the results from there
      on: what was read earlier leaves no trace. */
  lemma {:induction false} ReceiveLoopShift(a: seq<Frame>, b: seq<Frame>, i: nat, cancel: Cancellation)
    requires i <= |b|
    ensures ReceiveLoopFrom(a + b, |a| + i, cancel) == ShiftRun(ReceiveLoopFrom(b, i, cancel), |a|)
    decreases |b| - i
  {
    var x := AssembleFrom(b, i);
    if !cancel.Observed() && x.Complete? && b[x.end - 1].messageType != Close {
      ReceiveLoopShift(a, b, x.end, cancel.Next());
    }
    ShiftTurn(a, b, i, cancel);
  }

  /** One turn of ReceiveLoopShift: the loops agree from `i` when they agree
      from where the next message ends. */
  lemma ShiftTurn(a: seq<Frame>, b: seq<Frame>, i: nat, cancel: Cancellation)
    requires i <= |b|
    requires var x := AssembleFrom(b, i);
      !cancel.Observed() && x.Complete? && b[x.end - 1].messageType != Close ==>
      ReceiveLoopFrom(a + b, |a| + x.end, cancel.Next()) == ShiftRun(ReceiveLoopFrom(b, x.end, cancel.Next()), |a|)
    ensures ReceiveLoopFrom(a + b, |a| + i, cancel) == ShiftRun(ReceiveLoopFrom(b, i, cancel), |a|)
  {
    if !cancel.Observed() {
      AssembleShift(a, b, i);
      var x := AssembleFrom(b, i);
      if x.Complete? {
        assert (a + b)[|a| + x.end - 1] == b[x.end - 1];
      }
    }
  }

  /** A whole data message `p` in front of `t` is delivered as its own bytes,
      and `t` is then processed as if it were the whole stream: no byte of
      one message is carried into the next. */
  lemma MessageIsolation(p: seq<Frame>, t: seq<Frame>, cancel: Cancellation)
    requires IsMessageSpan(p, 0, |p|) && p[|p| - 1].messageType != Close
    requires !cancel.Observed()
    ensures ReceiveLoop(p + t, cancel) == After([Flatten(p)], ShiftRun(ReceiveLoop(t, cancel.Next()), |p|))
  {
    assert (p + t)[0..|p|] == p;
    assert IsMessageSpan(p + t, 0, |p|);
    ReceiveLoopTurn(p + t, 0, |p|, cancel);
    ReceiveLoopShift(p, t, 0, cancel.Next());
  }

  /** Whatever message came first, the messages after it and the way the
      loop stops are the same. */
  lemma NoCarryOver(p1: seq<Frame>, p2: seq<Frame>, t: seq<Frame>, cancel: Cancellation)
    requires IsMessageSpan(p1, 0, |p1|) && p1[|p1| - 1].messageType != Close
    requires IsMessageSpan(p2, 0, |p2|) && p2[|p2| - 1].messageType != Close
    requires !cancel.Observed()
    ensures 0 < |ReceiveLoop(p1 + t, cancel).delivered| && 0 < |ReceiveLoop(p2 + t, cancel).delivered|
    ensures ReceiveLoop(p1 + t, cancel).delivered[1..] == ReceiveLoop(p2 + t, cancel).delivered[1..]
    ensures ReceiveLoop(p1 + t, cancel).exit == ReceiveLoop(p2 + t, cancel).exit
  {
    MessageIsolation(p1, t, cancel);
    MessageIsolation(p2, t, cancel);
    var rest := ReceiveLoop(t, cancel.Next());
    assert ([Flatten(p1)] + rest.delivered)[1..] == rest.delivered;
    assert ([Flatten(p2)] + rest.delivered)[1..] == rest.delivered;
  }

  /** If the result that ends a message is of type Close, the loop stops
      right after it and the bytes gathered for that message are never
      delivered, even when earlier results of the span were data. */
  lemma CloseDiscardsPartial(p: seq<Frame>, t: seq<Frame>, cancel: Cancellation)
    requires IsMessageSpan(p, 0, |p|) && p[|p| - 1].messageType == Close
    requires !cancel.Observed()
    ensures ReceiveLoop(p + t, cancel) == LoopRun([], PeerClosed, |p|)
  {
    assert IsMessageSpan(p + t, 0, |p|);
    ReceiveLoopTurn(p + t, 0, |p|, cancel);
  }

  /** A stream that stops mid-message, because a receive is cancelled,
      fails or never completes, delivers nothing of that message: the loop
      never hands a prefix of a message to the sink. */
  lemma PartialNeverDelivered(p: seq<Frame>, cancel: Cancellation)
    requires NoEndIn(p, 0, |p|)
    ensures ReceiveLoop(p, cancel).delivered == []
    ensures ReceiveLoop(p, cancel).exit == (if cancel.Observed() then Cancelled else Receiving(Flatten(p)))
  {
    if !cancel.Observed() {
      ReceiveLoopRunsOut(p, 0, cancel);
      assert p[0..] == p;
    }
  }

  /** What cancellation before message `k` keeps of an uncancelled run. */
  predicate KeepsPrefix(fs: seq<Frame>, i: nat, k: nat)
    requires i <= |fs|
  {
    var full := ReceiveLoopFrom(fs, i, Never).delivered;
    && ReceiveLoopFrom(fs, i, AfterMessages(k)).delivered == full[..Min(k, |full|)]
    && (|full| >= k ==> ReceiveLoopFrom(fs, i, AfterMessages(k)).exit == Cancelled)
  }

  /** Cancellation seen at once. */
  lemma KeepsPrefixNow(fs: seq<Frame>, i: nat)
    requires i <= |fs|
    ensures KeepsPrefix(fs, i, 0)
  {
    assert ReceiveLoopFrom(fs, i, AfterMessages(0)) == LoopRun([], Cancelled, i);
  }

  /** A stream with no further complete message. */
  lemma KeepsPrefixRunsOut(fs: seq<Frame>, i: nat, k: nat)
    requires i <= |fs| && k > 0 && NoEndIn(fs, i, |fs|)
    ensures KeepsPrefix(fs, i, k)
  {
    ReceiveLoopRunsOut(fs, i, Never);
    ReceiveLoopRunsOut(fs, i, AfterMessages(k));
  }

  /** A stream whose next message ends in a close result. */
  lemma KeepsPrefixClosed(fs: seq<Frame>, i: nat, k: nat, h: int)
    requires k > 0 && IsMessageSpan(fs, i, h) && fs[h - 1].messageType == Close
    ensures KeepsPrefix(fs, i, k)
  {
    ReceiveLoopTurn(fs, i, h, Never);
    ReceiveLoopTurn(fs, i, h, AfterMessages(k));
  }

  /** One more data message in front of the rest of the stream. */
  lemma KeepsPrefixStep(fs: seq<Frame>, i: nat, k: nat, h: int)
    requires k > 0 && IsMessageSpan(fs, i, h) && fs[h - 1].messageType != Close
    requires KeepsPrefix(fs, h, k - 1)
    ensures KeepsPrefix(fs, i, k)
  {
    ReceiveLoopTurn(fs, i, h, Never);
    ReceiveLoopTurn(fs, i, h, AfterMessages(k));
    assert AfterMessages(k).Next() == AfterMessages(k - 1);
    assert Never.Next() == Never;
    var m := Flatten(fs[i..h]);
    var full := ReceiveLoopFrom(fs, h, Never);
    var cut := ReceiveLoopFrom(fs, h, AfterMessages(k - 1));
    assert ReceiveLoopFrom(fs, i, Never) == After([m], full);
    assert ReceiveLoopFrom(fs, i, AfterMessages(k)) == After([m], cut);
    var n := Min(k - 1, |full.delivered|);
    assert Min(k, |full.delivered| + 1) == n + 1;
    PrefixCons(m, full.delivered, n);
  }

  /** Cancelling before message `k` delivers exactly the first `k` messages
      an uncancelled loop would deliver (all of them if there are fewer), and
      once `k` are delivered it starts no other. */
  lemma {:induction false} CancellationKeepsCompletedPrefix(fs: seq<Frame>, i: nat, k: nat)
    requires i <= |fs|
    ensures var full := ReceiveLoopFrom(fs, i, Never).delivered;
      ReceiveLoopFrom(fs, i, AfterMessages(k)).delivered == full[..Min(k, |full|)]
    ensures |ReceiveLoopFrom(fs, i, Never).delivered| >= k ==>
      ReceiveLoopFrom(fs, i, AfterMessages(k)).exit == Cancelled
    decreases |fs| - i
  {
    if k == 0 {
      KeepsPrefixNow(fs, i);
    } else if NoEndIn(fs, i, |fs|) {
      KeepsPrefixRunsOut(fs, i, k);
    } else {
      var h := NextMessage(fs, i);
      if fs[h - 1].messageType == Close {
        KeepsPrefixClosed(fs, i, k, h);
      } else {
        CancellationKeepsCompletedPrefix(fs, h, k - 1);
        KeepsPrefixStep(fs, i, k, h);
      }
    }
  }

  /** A result that neither ends a message nor adds bytes. */
  predicate Neutral(f: Frame)
  {
    !f.endOfMessage && (f.count == 0 || f.messageType == Close)
  }

  /** Deliveries and exit agree; positions may differ. */
  predicate SameOutcome(r1: LoopRun, r2: LoopRun)
  {
    r1.delivered == r2.delivered && r1.exit == r2.exit
  }

  /** The agreement NeutralAssemble states, between an assembly over the
      stream with the neutral result and one over the stream without it. */
  predicate AssembliesAgree(x1: Assembly, x2: Assembly, s1: seq<Frame>, s2: seq<Frame>, n: int)
  {
    && x1.Complete? == x2.Complete?
    && (x1.Incomplete? ==> x1.partial == x2.partial)
    && (x1.Complete? ==>
      && x1.body == x2.body
      && 0 < x1.end <= |s1| && 0 < x2.end <= |s2|
      && s1[x1.end - 1] == s2[x2.end - 1]
      && x1.end == (if x2.end <= n then x2.end else x2.end + 1))
  }

  /** Assembly that starts at the neutral result itself. */
  lemma NeutralAssembleAtResult(a: seq<Frame>, f: Frame, b: seq<Frame>)
    requires Neutral(f)
    ensures AssembliesAgree(AssembleFrom(a + [f] + b, |a|), AssembleFrom(a + b, |a|), a + [f] + b, a + b, |a|)
  {
    var s1 := a + [f] + b;
    var s2 := a + b;
    assert s1[|a|] == f;
    assert Contribution(f) == [];
    AssembleShift(a + [f], b, 0);
    AssembleShift(a, b, 0);
    match AssembleFrom(b, 0)
    case Complete(body, end) =>
      assert s1[|a| + end] == b[end - 1] == s2[|a| + end - 1];
      assert [] + body == body;
    case Incomplete(partial) =>
      assert [] + partial == partial;
  }

  /** Assembly from a position in `a` gives the same bytes whether or not a
      neutral result follows `a`; the result that ends the message is the
      same one, one position later when it lies past the neutral result. */
  lemma {:induction false} NeutralAssemble(a: seq<Frame>, f: Frame, b: seq<Frame>, i: nat)
    requires Neutral(f) && i <= |a|
    ensures AssembliesAgree(AssembleFrom(a + [f] + b, i), AssembleFrom(a + b, i), a + [f] + b, a + b, |a|)
    decreases |a| - i
  {
    if i == |a| {
      NeutralAssembleAtResult(a, f, b);
    } else {
      assert (a + [f] + b)[i] == a[i] == (a + b)[i];
      if !a[i].endOfMessage {
        NeutralAssemble(a, f, b, i + 1);
      }
    }
  }

  /** Whatever precedes `b`, the loop agrees from the same place in `b`. */
  lemma SameSuffix(a1: seq<Frame>, a2: seq<Frame>, b: seq<Frame>, h: nat, cancel: Cancellation)
    requires h <= |b|
    ensures SameOutcome(ReceiveLoopFrom(a1 + b, |a1| + h, cancel), ReceiveLoopFrom(a2 + b, |a2| + h, cancel))
  {
    ReceiveLoopShift(a1, b, h, cancel);
    ReceiveLoopShift(a2, b, h, cancel);
  }

  /** The induction behind NeutralResultInvisible, from position `i` of `a`. */
  lemma {:induction false} NeutralInvisibleFrom(a: seq<Frame>, f: Frame, b: seq<Frame>, i: nat, cancel: Cancellation)
    requires Neutral(f) && i <= |a|
    ensures SameOutcome(ReceiveLoopFrom(a + [f] + b, i, cancel), ReceiveLoopFrom(a + b, i, cancel))
    decreases |a| - i
  {
    if !cancel.Observed() {
      NeutralAssemble(a, f, b, i);
      var x2 := AssembleFrom(a + b, i);
      if x2.Complete? && (a + b)[x2.end - 1].messageType != Close {
        if x2.end <= |a| {
          NeutralInvisibleFrom(a, f, b, x2.end, cancel.Next());
        } else {
          SameSuffix(a + [f], a, b, x2.end - |a|, cancel.Next());
        }
      }
    }
  }

  /** A result that carries no EndOfMessage and adds no bytes (a zero-count
      result, or a close result without EndOfMessage) changes neither what
      is delivered nor how the loop stops, wherever it appears. */
  lemma NeutralResultInvisible(a: seq<Frame>, f: Frame, b: seq<Frame>, cancel: Cancellation)
    requires Neutral(f)
    ensures ReceiveLoop(a + [f] + b, cancel).delivered == ReceiveLoop(a + b, cancel).delivered
    ensures ReceiveLoop(a + [f] + b, cancel).exit == ReceiveLoop(a + b, cancel).exit
  {
    NeutralInvisibleFrom(a, f, b, 0, cancel);
  }
}
