/** What the transport promises over every run of a connection. */
module SessionTheorems {
  import opened Basics
  import opened Segment
  import opened SendBuffer
  import opened Stream
  import opened Session
  import Client
  import Server

  predicate PositiveMultiple(data: seq<Byte>) {
    |data| > 0 && |data| % MAX_SEG_LEN == 0
  }

  lemma {:induction false} IntendedIsWhole(sends: seq<seq<Byte>>)
    requires forall i :: 0 <= i < |sends| ==> !PositiveMultiple(sends[i])
    ensures Intended(sends) == Flatten(sends)
  {
    if sends != [] {
      var init, last := sends[..|sends| - 1], sends[|sends| - 1];
      IntendedIsWhole(init);
      FragmentsAreFaithful(last);
      FlattenAppends(init, [last]);
      FlattenSingle(last);
      assert sends == init + [last];
    }
  }

  /** End to end: what the server has returned and still buffers is exactly the queued
      stream up to its expected sequence number, and a prefix of what the sends intend. */
  lemma DeliveryIsAPrefix(client: Addr, server: Addr, run: seq<Session>, k: nat)
    requires Run(client, server, run) && k < |run|
    requires Joined(run[k]) && run[k].sv.client == client
    ensures var s := run[k];
            && s.sv.expected <= |Bytes(s.queued)|
            && s.delivered + s.sv.recvd == Bytes(s.queued)[..s.sv.expected]
            && s.delivered + s.sv.recvd <= Intended(s.sends)
  {
    RunKeeps(client, server, run, k);
    var s := run[k];
    assert Bytes(s.queued) <= Intended(s.sends);
  }

  /** When no send had a positive multiple of 200 bytes, the server's application has
      read a prefix of the caller's own bytes. */
  lemma ReaderGetsWhatWasSent(client: Addr, server: Addr, run: seq<Session>, k: nat)
    requires Run(client, server, run) && k < |run|
    requires Joined(run[k]) && run[k].sv.client == client
    requires forall i :: 0 <= i < |run[k].sends| ==> !PositiveMultiple(run[k].sends[i])
    ensures run[k].delivered <= Flatten(run[k].sends)
  {
    DeliveryIsAPrefix(client, server, run, k);
    IntendedIsWhole(run[k].sends);
  }

  /** The window in order: the head of the buffer, what the server expects, the end of what
      was sent, the next number. */
  lemma WindowIsOrdered(client: Addr, server: Addr, run: seq<Session>, k: nat)
    requires Run(client, server, run) && k < |run| && run[k].cl.state.CONNECTED?
    ensures var s := run[k];
            && s.base <= SentCount(s) <= |s.queued|
            && Offset(s.queued, s.base) <= s.sv.expected
            && s.sv.expected <= Offset(s.queued, SentCount(s)) <= s.cl.buf.nextSeq
    ensures var b := run[k].cl.buf;
            b.live != [] ==> b.live[0].seqNum == Offset(run[k].queued, run[k].base)
  {
    var s := run[k];
    RunKeeps(client, server, run, k);
    var j :| 0 <= j <= SentCount(s) && s.sv.expected == Offset(s.queued, j);
    PrefixBytes(s.queued, j, SentCount(s));
    PrefixBytes(s.queued, SentCount(s), |s.queued|);
    assert s.queued[..|s.queued|] == s.queued;
    if s.cl.buf.live != [] {
      assert InPlace(s.queued, s.base);
    }
  }

  /** No acknowledgement in flight is beyond the server, and any of them frees only
      segments that were sent: the unsent pointer never dangles. */
  lemma AcksAreSafe(client: Addr, server: Addr, run: seq<Session>, k: nat, m: Segment)
    requires Run(client, server, run) && k < |run|
    requires m in run[k].net && m.dst == client
    ensures Client.MayHandle(run[k].cl, m)
    ensures m.src == server && m.kind.DATAACK? ==> m.seqNum <= run[k].sv.expected
  {
    RunKeeps(client, server, run, k);
    assert WireOk(run[k], m);
    if Client.IsAck(run[k].cl, m) {
      AckIsSafe(run[k], m.seqNum);
    }
  }

  /** Only a disconnect ends a connection, and it is for good. */
  lemma StepStaysOver(s: Session, e: Event)
    requires Sender(s) && Enabled(s, e)
    ensures s.over ==> Apply(s, e).over
    ensures s.cl.state.CONNECTED? ==> Apply(s, e).cl.state.CONNECTED? || Apply(s, e).over
  {
    match e
    case ToClient(m) =>
    case ToServer(m) =>
    case _ =>
  }

  lemma {:induction false} OverStays(client: Addr, server: Addr, run: seq<Session>, i: nat, j: nat)
    requires Run(client, server, run) && i <= j < |run| && run[i].over
    ensures run[j].over
    decreases j - i
  {
    if i < j {
      OverStays(client, server, run, i, j - 1);
      RunKeeps(client, server, run, j - 1);
      assert StepAt(run, j - 1);
      var e :| Enabled(run[j - 1], e) && run[j] == Apply(run[j - 1], e);
      StepStaysOver(run[j - 1], e);
    }
  }

  lemma {:induction false} ConnectedBetween(client: Addr, server: Addr, run: seq<Session>, i: nat, k: nat, j: nat)
    requires Run(client, server, run) && i <= k <= j < |run|
    requires run[i].cl.state.CONNECTED? && run[j].cl.state.CONNECTED?
    ensures run[k].cl.state.CONNECTED?
    decreases k - i
  {
    if i < k {
      ConnectedBetween(client, server, run, i, k - 1, j);
      RunKeeps(client, server, run, k - 1);
      assert StepAt(run, k - 1);
      var e :| Enabled(run[k - 1], e) && run[k] == Apply(run[k - 1], e);
      StepStaysOver(run[k - 1], e);
      if run[k].over {
        OverStays(client, server, run, k, j);
        RunKeeps(client, server, run, j);
      }
    }
  }

  /** Over any stretch of a connection neither the head nor the unsent pointer moves back. */
  lemma {:induction false} PointersNeverMoveBack(client: Addr, server: Addr, run: seq<Session>, i: nat, j: nat)
    requires Run(client, server, run) && i <= j < |run|
    requires run[i].cl.state.CONNECTED? && run[j].cl.state.CONNECTED?
    ensures run[i].base <= run[j].base && SentCount(run[i]) <= SentCount(run[j])
    decreases j - i
  {
    if i < j {
      ConnectedBetween(client, server, run, i, j - 1, j);
      PointersNeverMoveBack(client, server, run, i, j - 1);
      RunKeeps(client, server, run, j - 1);
      assert StepAt(run, j - 1);
      var e :| Enabled(run[j - 1], e) && run[j] == Apply(run[j - 1], e);
      StepMovesOn(run[j - 1], e);
    }
  }

  lemma StepMovesOn(s: Session, e: Event)
    requires Sender(s) && Counter(s) && Enabled(s, e)
    requires s.cl.state.CONNECTED? && Apply(s, e).cl.state.CONNECTED?
    ensures s.base <= Apply(s, e).base && SentCount(s) <= SentCount(Apply(s, e))
  {
    match e
    case ToClient(m) =>
      if Client.IsAck(s.cl, m) {
        AckMovesOn(s, m.seqNum);
      }
    case ToServer(m) =>
    case _ =>
  }

  lemma AckMovesOn(s: Session, ack: nat)
    requires s.cl.state.CONNECTED? && Acked(s.cl.buf.live, ack) <= s.cl.buf.unsent
    ensures s.base <= AfterAck(s, ack).base && SentCount(AfterAck(s, ack)) == SentCount(s)
  {
  }

  /** The outstanding counter: off by at most one below, wrap included; off by one only
      after a timeout; never wrapped without one. */
  lemma CounterTracksTheWindow(client: Addr, server: Addr, run: seq<Session>, k: nat)
    requires Run(client, server, run) && k < |run| && run[k].cl.state.CONNECTED?
    ensures var s, b := run[k], run[k].cl.buf;
            && b.unsent <= b.unAck + 1 <= WORD32
            && (!s.wrapped ==> b.unAck <= b.unsent && b.unAck <= GBN_WINDOW + 1 && b.unsent <= GBN_WINDOW + 2)
            && (!s.timedOut ==> b.unAck == b.unsent && !s.wrapped)
  {
    RunKeeps(client, server, run, k);
  }

  /** A non-empty buffer always has a live timer. */
  lemma BufferHasATimer(client: Addr, server: Addr, run: seq<Session>, k: nat)
    requires Run(client, server, run) && k < |run| && run[k].cl.buf.live != []
    ensures Enabled(run[k], TimerFires)
  {
    RunKeeps(client, server, run, k);
  }

  /** An empty last segment is never acknowledged away: the buffer stays non-empty, and
      its timer alive, until something else is queued. */
  lemma EmptyTailStays(client: Addr, server: Addr, run: seq<Session>, k: nat)
    requires Run(client, server, run) && k < |run| && run[k].cl.state.CONNECTED?
    requires var q := run[k].queued; q != [] && q[|q| - 1].data == []
    ensures run[k].cl.buf.live != []
  {
    var s := run[k];
    RunKeeps(client, server, run, k);
    var n := |s.queued| - 1;
    OffsetNext(s.queued, n);
    assert InPlace(s.queued, n) && s.queued[..|s.queued|] == s.queued;
  }

  /** The acknowledgement of the whole stream empties the buffer if and only if the last
      segment queued, if any, is not empty. */
  lemma WholeAckEmpties(client: Addr, server: Addr, run: seq<Session>, k: nat, m: Segment)
    requires Run(client, server, run) && k < |run|
    requires Enabled(run[k], ToClient(m)) && Client.IsAck(run[k].cl, m) && m.seqNum == |Bytes(run[k].queued)|
    ensures var q := run[k].queued;
            Apply(run[k], ToClient(m)).cl.buf.live == [] <==> q == [] || q[|q| - 1].data != []
  {
    RunKeeps(client, server, run, k);
    if run[k].cl.buf.live != [] {
      WholeAckLeaves(run[k], m.seqNum);
    } else {
      EmptyBufferIsWhole(client, server, run, k);
    }
  }

  lemma WholeAckLeaves(s: Session, ack: nat)
    requires Contiguous(s.queued) && s.base < |s.queued| && s.cl.buf.live == s.queued[s.base..]
    requires ack == |Bytes(s.queued)| && Acked(s.cl.buf.live, ack) <= s.cl.buf.unsent
    ensures AfterAck(s, ack).cl.buf.live == [] <==> s.queued[|s.queued| - 1].data != []
  {
    WholeAckFrees(s.queued, s.base);
  }

  /** The end of the stream acknowledges every segment if and only if the last one does not
      start there. */
  lemma WholeAckFrees(q: seq<Frag>, base: nat)
    requires Contiguous(q) && base < |q|
    ensures Acked(q[base..], |Bytes(q)|) == |q| - base <==> q[|q| - 1].data != []
  {
    assert q[..|q|] == q;
    TakeAt(q, |q| - 1);
    AckedToTheLast(q, base, |Bytes(q)|);
  }

  lemma AckedToTheLast(q: seq<Frag>, base: nat, ack: nat)
    requires Contiguous(q) && base < |q|
    ensures Acked(q[base..], ack) == |q| - base <==> q[|q| - 1].seqNum < ack
  {
    var k, live := Acked(q[base..], ack), q[base..];
    assert live[|live| - 1] == q[|q| - 1];
    if k < |live| {
      assert live[k] == q[base + k] && InPlace(q, base + k) && InPlace(q, |q| - 1);
      PrefixBytes(q, base + k, |q| - 1);
    }
  }

  lemma EmptyBufferIsWhole(client: Addr, server: Addr, run: seq<Session>, k: nat)
    requires Run(client, server, run) && k < |run| && run[k].cl.state.CONNECTED? && run[k].cl.buf.live == []
    ensures var q := run[k].queued; q == [] || q[|q| - 1].data != []
  {
    if run[k].queued != [] && run[k].queued[|run[k].queued| - 1].data == [] {
      EmptyTailStays(client, server, run, k);
    }
  }

  /** In every reachable state a receive of the whole buffer's size polls on. */
  lemma WholeBufferNeverServed(client: Addr, server: Addr, run: seq<Session>, k: nat)
    requires Run(client, server, run) && k < |run|
    ensures Server.Recv(run[k].sv, RECEIVE_BUF_SIZE) == (run[k].sv, Server.NotYet)
  {
    RunKeeps(client, server, run, k);
  }

  // ---------------------------------------------------------------- the shut window

  /** Once wrapped, the counter and the segments freed so far make up the wrap. */
  ghost predicate WrapHeld(s: Session) {
    s.wrapped ==> s.cl.buf.unAck + s.base >= WORD32 - 1
  }

  lemma StepHoldsWrap(s: Session, e: Event)
    requires Core(s) && WrapHeld(s) && Enabled(s, e)
    ensures WrapHeld(Apply(s, e))
  {
    match e
    case ToClient(m) =>
      if Client.IsAck(s.cl, m) {
        AckHoldsWrap(s, m.seqNum);
      }
    case ToServer(m) =>
    case _ =>
  }

  lemma AckHoldsWrap(s: Session, ack: nat)
    requires WrapHeld(s) && Acked(s.cl.buf.live, ack) <= s.cl.buf.unsent <= s.cl.buf.unAck + 1 <= WORD32
    ensures WrapHeld(AfterAck(s, ack))
  {
    CounterAfterFree(s.cl.buf, ack);
  }

  lemma {:induction false} RunHoldsWrap(client: Addr, server: Addr, run: seq<Session>, k: nat)
    requires Run(client, server, run) && k < |run|
    ensures WrapHeld(run[k])
  {
    if k > 0 {
      RunHoldsWrap(client, server, run, k - 1);
      RunKeeps(client, server, run, k - 1);
      assert StepAt(run, k - 1);
      var e :| Enabled(run[k - 1], e) && run[k] == Apply(run[k - 1], e);
      StepHoldsWrap(run[k - 1], e);
    }
  }

  /** wrapped is history: a wrap is never forgotten. */
  lemma {:induction false} WrapLasts(client: Addr, server: Addr, run: seq<Session>, i: nat, j: nat)
    requires Run(client, server, run) && i <= j < |run| && run[i].wrapped
    ensures run[j].wrapped
    decreases j - i
  {
    if i < j {
      WrapLasts(client, server, run, i, j - 1);
      assert StepAt(run, j - 1);
      var e :| Enabled(run[j - 1], e) && run[j] == Apply(run[j - 1], e);
      StepKeepsWrap(run[j - 1], e);
    }
  }

  lemma StepKeepsWrap(s: Session, e: Event)
    requires Enabled(s, e) && s.wrapped
    ensures Apply(s, e).wrapped
  {
    match e
    case ToClient(m) =>
    case ToServer(m) =>
    case _ =>
  }

  lemma HeldWrapShuts(s: Session)
    requires Core(s) && s.cl.state.CONNECTED? && s.wrapped && WrapHeld(s) && s.base + GBN_WINDOW + 2 <= WORD32
    ensures SendMax(s.cl.buf) == (s.cl.buf, [])
  {
    var b := s.cl.buf;
    assert Room(b) == 0 && b.live[b.unsent..b.unsent] == [];
  }

  /** The window stays shut: once a wrap has happened, sendMaxSegments sends nothing at any
      later moment of the connection, until 2^32 - 12 segments have been freed in all. */
  lemma ShutWindowStays(client: Addr, server: Addr, run: seq<Session>, i: nat, k: nat)
    requires Run(client, server, run) && i <= k < |run| && run[i].wrapped && run[k].cl.state.CONNECTED?
    ensures run[k].cl.buf.unAck + run[k].base >= WORD32 - 1
    ensures run[k].cl.buf.unsent <= |run[k].cl.buf.live|
    ensures run[k].base + GBN_WINDOW + 2 <= WORD32 ==> SendMax(run[k].cl.buf) == (run[k].cl.buf, [])
  {
    WrapLasts(client, server, run, i, k);
    RunHoldsWrap(client, server, run, k);
    RunKeeps(client, server, run, k);
    if run[k].base + GBN_WINDOW + 2 <= WORD32 {
      HeldWrapShuts(run[k]);
    }
  }

  // ---------------------------------------------------------------- answering

  /** While the server is connected every DATA segment of the recorded client that arrives,
      expected or not, puts its acknowledgement in flight. */
  lemma EveryDataIsAnswered(client: Addr, server: Addr, run: seq<Session>, k: nat, m: Segment)
    requires Run(client, server, run) && k < |run| && Enabled(run[k], ToServer(m))
    requires run[k].sv.state.CONNECTED? && m.kind.DATA? && m.src == run[k].sv.client
    ensures var t := Apply(run[k], ToServer(m));
            Segment(server, m.src, DATAACK, t.sv.expected, []) in t.net
  {
    RunKeeps(client, server, run, k);
    Server.EveryAnswer(run[k].sv, m);
  }

  // ---------------------------------------------------------------- accepting

  /** Exactly what a look of accept answers: it polls on until some SYN has come, and then
      returns 1 if and only if the recorded client's FIN has not come as well. If that
      client is ours, -1 means that it had connected and has already disconnected. */
  lemma AcceptAnswers(client: Addr, server: Addr, run: seq<Session>, k: nat)
    requires Run(client, server, run) && k < |run| && Enabled(run[k], AcceptLook)
    ensures var s, t := run[k], Apply(run[k], AcceptLook);
            && (t.answer == None <==> !Joined(s))
            && (t.answer == Some(1) <==> s.sv.state.CONNECTED?)
            && (Joined(s) && t.answer != Some(1) ==> t.answer == Some(-1) && t.sv.state.CLOSED?)
            && (Joined(s) && s.sv.client == client && !s.over ==> t.answer == Some(1))
  {
    RunKeeps(client, server, run, k);
  }

  // ---------------------------------------------------------------- opening and closing

  /** A connected client is the one the server recorded, and the server is connected. */
  lemma ConnectedMeansRecorded(client: Addr, server: Addr, run: seq<Session>, k: nat)
    requires Run(client, server, run) && k < |run| && run[k].cl.state.CONNECTED?
    ensures run[k].sv.state.CONNECTED? && run[k].sv.client == client && run[k].cl.svr == server
  {
    RunKeeps(client, server, run, k);
  }

  /** A disconnect that succeeds leaves a server that has left its connected state. */
  lemma DisconnectMeansServerLeft(client: Addr, server: Addr, run: seq<Session>, k: nat, m: Segment)
    requires Run(client, server, run) && k < |run| && run[k].cl.state.FINWAIT?
    requires Enabled(run[k], ToClient(m)) && Apply(run[k], ToClient(m)).cl.state.CLOSED?
    ensures run[k].sv.state.CLOSEWAIT? || run[k].sv.state.CLOSED?
  {
    RunKeeps(client, server, run, k);
    assert WireOk(run[k], m);
  }
}
