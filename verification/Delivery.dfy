/** What a connection can come to: the reader gets everything, a receive of any length below
    the buffer's size is served, an empty segment stays for good, an accept refuses. */
module Delivery {
  import opened Basics
  import opened Segment
  import opened SendBuffer
  import opened Stream
  import opened Session
  import opened SessionTheorems
  import opened Progress
  import opened Rounds
  import opened Calls
  import Client
  import Server

  // ---------------------------------------------------------------- the pieces of the stream

  /** Pieces have at most 200 bytes, and none is empty unless some send was a positive
      multiple of 200. */
  ghost predicate GoodPiece(s: Session, data: seq<Byte>) {
    && |data| <= MAX_SEG_LEN
    && ((forall i :: 0 <= i < |s.sends| ==> !PositiveMultiple(s.sends[i])) ==> data != [])
  }

  ghost predicate GoodPieces(s: Session) {
    && (forall i :: 0 <= i < |s.queued| ==> GoodPiece(s, s.queued[i].data))
    && (forall i :: 0 <= i < |s.todo| ==> GoodPiece(s, s.todo[i]))
  }

  lemma CuttingKeepsPieces(s: Session, data: seq<Byte>)
    requires GoodPieces(s) && Enabled(s, Send(data))
    ensures GoodPieces(Apply(s, Send(data)))
  {
    var t := Apply(s, Send(data));
    FragmentsMean(data);
    assert t.sends[|s.sends|] == data;
    forall p | GoodPiece(s, p) ensures GoodPiece(t, p) {
      if forall i :: 0 <= i < |t.sends| ==> !PositiveMultiple(t.sends[i]) {
        forall i | 0 <= i < |s.sends| ensures !PositiveMultiple(s.sends[i]) {
          assert t.sends[i] == s.sends[i];
        }
      }
    }
  }

  lemma StepKeepsPieces(s: Session, e: Event)
    requires GoodPieces(s) && Enabled(s, e)
    ensures GoodPieces(Apply(s, e))
  {
    match e
    case Send(data) => CuttingKeepsPieces(s, data);
    case QueueNext => QueueingKeepsPieces(s);
    case _ => SamePieces(s, Apply(s, e));
  }

  lemma QueueingKeepsPieces(s: Session)
    requires GoodPieces(s) && s.todo != []
    ensures GoodPieces(AfterQueue(s))
  {
    var t := AfterQueue(s);
    assert forall p :: GoodPiece(s, p) ==> GoodPiece(t, p);
  }

  lemma SamePieces(s: Session, t: Session)
    requires GoodPieces(s) && t.queued == s.queued && t.todo == s.todo && t.sends == s.sends
    ensures GoodPieces(t)
  {
    assert forall p :: GoodPiece(s, p) ==> GoodPiece(t, p);
  }

  lemma {:induction false} RunKeepsPieces(client: Addr, server: Addr, run: seq<Session>, k: nat)
    requires Run(client, server, run) && k < |run|
    ensures GoodPieces(run[k])
  {
    if k > 0 {
      RunKeepsPieces(client, server, run, k - 1);
      assert StepAt(run, k - 1);
      var e :| Enabled(run[k - 1], e) && run[k] == Apply(run[k - 1], e);
      StepKeepsPieces(run[k - 1], e);
    }
  }

  // ---------------------------------------------------------------- the whole stream

  lemma ReadingIsAble(s: Session)
    requires Inv(s) && GoodPieces(s) && s.cl.state.CONNECTED?
    requires forall i :: s.base <= i < |s.queued| ==> s.queued[i].data != []
    ensures Able(s, true)
  {
    forall i | s.base <= i < |s.queued| ensures |s.queued[i].data| < RECEIVE_BUF_SIZE {
      assert GoodPiece(s, s.queued[i].data);
    }
  }

  /** What the server's application may have read in the end. */
  lemma CanReadAll(s: Session) returns (t: Session)
    requires Able(s, true)
    ensures Leads(s, t) && t.delivered == Bytes(s.queued)
  {
    var (drained, _) := Drain(s, true);
    DrainDelivers(s, true);
    t := Ready(drained, true);
    ReadyKeeps(drained, true);
    LeadsOn(s, drained, t);
    assert drained.sv.recvd[..|drained.sv.recvd|] == drained.sv.recvd;
  }

  /** From every reachable connected state with no empty segment in the buffer, some
      continuation hands the server's application the whole queued stream. */
  lemma ReaderCanGetAll(client: Addr, server: Addr, run: seq<Session>) returns (more: seq<Session>)
    requires Run(client, server, run) && run[|run| - 1].cl.state.CONNECTED?
    requires var s := run[|run| - 1]; forall i :: s.base <= i < |s.queued| ==> s.queued[i].data != []
    ensures Run(client, server, more) && run <= more
    ensures more[|more| - 1].delivered == Bytes(run[|run| - 1].queued)
  {
    RunKeeps(client, server, run, |run| - 1);
    RunKeepsPieces(client, server, run, |run| - 1);
    ReadingIsAble(run[|run| - 1]);
    var t := CanReadAll(run[|run| - 1]);
    more := RunLeads(client, server, run, t);
  }

  lemma QueuedIsSent(s: Session)
    requires Account(s) && s.todo == [] && forall i :: 0 <= i < |s.sends| ==> !PositiveMultiple(s.sends[i])
    ensures Bytes(s.queued) == Flatten(s.sends)
  {
    IntendedIsWhole(s.sends);
    assert Bytes(s.queued) + [] == Bytes(s.queued);
  }

  /** When no send was a positive multiple of 200 bytes and all are queued, some
      continuation hands over exactly the callers' bytes. */
  lemma ReaderCanGetAllSent(client: Addr, server: Addr, run: seq<Session>) returns (more: seq<Session>)
    requires Run(client, server, run) && run[|run| - 1].cl.state.CONNECTED? && run[|run| - 1].todo == []
    requires var s := run[|run| - 1]; forall i :: 0 <= i < |s.sends| ==> !PositiveMultiple(s.sends[i])
    ensures Run(client, server, more) && run <= more
    ensures more[|more| - 1].delivered == Flatten(run[|run| - 1].sends)
  {
    var s := run[|run| - 1];
    RunKeeps(client, server, run, |run| - 1);
    RunKeepsPieces(client, server, run, |run| - 1);
    forall i | s.base <= i < |s.queued| ensures s.queued[i].data != [] {
      assert GoodPiece(s, s.queued[i].data);
    }
    QueuedIsSent(s);
    more := ReaderCanGetAll(client, server, run);
  }

  // ---------------------------------------------------------------- which receives are served

  /** The run ends where a receive of n bytes is served. */
  ghost predicate Serves(client: Addr, server: Addr, run: seq<Session>, n: nat) {
    Run(client, server, run) && Server.Recv(run[|run| - 1].sv, n).1.Bytes?
  }

  /** A connection that has queued one send and delivered nothing yet. */
  lemma OneSendQueued(client: Addr, server: Addr, data: seq<Byte>) returns (run: seq<Session>, t: Session)
    requires client != server && data != [] && !PositiveMultiple(data) && |data| < WORD32
    ensures Run(client, server, run) && t == run[|run| - 1] && t.cl.state.CONNECTED?
    ensures t.todo == [] && t.sends == [data] && t.delivered == [] && t.sv.recvd == [] && t.sv.expected == 0
    ensures t.cl.buf.unAck == 0 && t.cl.buf.live != []
  {
    var start := Init(client, server);
    var s := Opens(client, server);
    var cut := Apply(s, Send(data));
    LeadsByEvent(s, Send(data));
    LeadsOn(start, s, cut);
    FragmentsAreNoLonger(data);
    t := QueueRest(cut);
    SendMeans(s.cl.buf, data);
    LeadsOn(start, cut, t);
    run := RunLeads(client, server, [start], t);
  }

  lemma SmallSendIsAble(s: Session, data: seq<Byte>)
    requires Inv(s) && GoodPieces(s) && s.cl.state.CONNECTED? && s.todo == [] && s.sends == [data]
    requires !PositiveMultiple(data) && |data| < RECEIVE_BUF_SIZE && s.sv.recvd == [] && s.sv.expected == 0
    ensures Able(s, false) && Bytes(s.queued) == data
  {
    QueuedIsSent(s);
    FlattenSingle(data);
    forall i | s.base <= i < |s.queued| ensures s.queued[i].data != [] {
      assert GoodPiece(s, s.queued[i].data);
    }
  }

  lemma SomeRunBuffers(client: Addr, server: Addr, data: seq<Byte>) returns (run: seq<Session>)
    requires client != server && data != [] && !PositiveMultiple(data) && |data| < RECEIVE_BUF_SIZE
    ensures Run(client, server, run) && run[|run| - 1].sv.recvd == data
  {
    var before, s := OneSendQueued(client, server, data);
    RunKeeps(client, server, before, |before| - 1);
    RunKeepsPieces(client, server, before, |before| - 1);
    SmallSendIsAble(s, data);
    DrainDelivers(s, false);
    run := RunLeads(client, server, before, Drain(s, false).0);
  }

  lemma SomeRunServes(client: Addr, server: Addr, n: nat) returns (run: seq<Session>)
    requires client != server && n < RECEIVE_BUF_SIZE
    ensures Serves(client, server, run, n)
  {
    if n == 0 {
      run := [Init(client, server)];
    } else {
      var m := if n % MAX_SEG_LEN == 0 then n + 1 else n;
      run := SomeRunBuffers(client, server, seq(m, _ => 0));
    }
  }

  /** Exactly the lengths below the buffer's size can ever be served. */
  lemma ServableLengths(client: Addr, server: Addr, n: nat)
    requires client != server
    ensures (exists run :: Serves(client, server, run, n)) <==> n < RECEIVE_BUF_SIZE
  {
    if n < RECEIVE_BUF_SIZE {
      var run := SomeRunServes(client, server, n);
    }
    forall run | Serves(client, server, run, n) ensures n < RECEIVE_BUF_SIZE {
      RunKeeps(client, server, run, |run| - 1);
    }
  }

  // ---------------------------------------------------------------- what goes wrong

  /** Between any two addresses a timeout that fires while segments are queued but not yet
      sent is enough to wrap the counter, and so to shut the window. */
  lemma SomeWindowShuts(client: Addr, server: Addr, data: seq<Byte>) returns (run: seq<Session>)
    requires client != server && data != [] && !PositiveMultiple(data) && |data| < RECEIVE_BUF_SIZE
    ensures Run(client, server, run)
    ensures run[|run| - 1].cl.state.CONNECTED? && run[|run| - 1].wrapped
  {
    var before, s := OneSendQueued(client, server, data);
    RunKeeps(client, server, before, |before| - 1);
    RunKeepsPieces(client, server, before, |before| - 1);
    SmallSendIsAble(s, data);
    run := WindowShuts(client, server, before, false);
  }

  lemma TwoHundredCutToNothing(data: seq<Byte>)
    requires |data| == MAX_SEG_LEN
    ensures Fragments(data) == [[]]
  {
    assert FragmentCount(|data|) == 1 && data[..0] == [];
  }

  /** Connected, with one empty segment queued and the server at its start. */
  ghost predicate OnlyEmpty(s: Session, data: seq<Byte>) {
    && Inv(s) && s.cl.state.CONNECTED? && s.sends == [data] && s.todo == [] && s.base == 0
    && s.queued == [Frag(0, [])] && s.cl.buf.live == s.queued && s.timers > 0
    && s.delivered == [] && s.sv.recvd == [] && s.sv.expected == 0
  }

  lemma EmptyIsQueued(client: Addr, server: Addr, data: seq<Byte>) returns (t: Session)
    requires client != server && |data| == MAX_SEG_LEN
    ensures Leads(Init(client, server), t) && OnlyEmpty(t, data)
  {
    var start := Init(client, server);
    var s := Opens(client, server);
    TwoHundredCutToNothing(data);
    LeadsTo(start, s, Send(data));
    var a := Apply(s, Send(data));
    LeadsTo(start, a, QueueNext);
    t := Apply(a, QueueNext);
  }

  lemma EmptyIsSent(s: Session, data: seq<Byte>) returns (t: Session)
    requires OnlyEmpty(s, data)
    ensures Leads(s, t) && OnlyEmpty(t, data) && Piece(t, 0) in t.net
  {
    LeadsSelf(s);
    LeadsTo(s, s, TimerFires);
    t := Apply(s, TimerFires);
    var segs := Client.ToSegments(s.cl, Timeout(s.cl.buf).1);
    assert segs[0] == Piece(t, 0) && segs[0] in SetOf(segs);
  }

  lemma EmptyIsAnswered(s: Session, data: seq<Byte>) returns (t: Session)
    requires OnlyEmpty(s, data) && Piece(s, 0) in s.net
    ensures Leads(s, t) && OnlyEmpty(t, data) && AckOf(t) in t.net
  {
    LeadsSelf(s);
    assert Enabled(s, ToServer(Piece(s, 0)));
    LeadsTo(s, s, ToServer(Piece(s, 0)));
    t := Apply(s, ToServer(Piece(s, 0)));
  }

  /** A send of exactly 200 bytes: one empty segment is queued, nothing is delivered, and
      although the server has acknowledged the whole stream the buffer is not empty. */
  lemma SomeEmptyTail(client: Addr, server: Addr, data: seq<Byte>) returns (run: seq<Session>, ack: Segment)
    requires client != server && |data| == MAX_SEG_LEN
    ensures Run(client, server, run)
    ensures var s := run[|run| - 1];
            && OnlyEmpty(s, data) && Enabled(s, ToClient(ack)) && Client.IsAck(s.cl, ack)
            && ack.seqNum == |Bytes(s.queued)| && Apply(s, ToClient(ack)).cl.buf.live == s.cl.buf.live != []
  {
    var start := Init(client, server);
    var a := EmptyIsQueued(client, server, data);
    var b := EmptyIsSent(a, data);
    LeadsOn(start, a, b);
    var d := EmptyIsAnswered(b, data);
    LeadsOn(start, b, d);
    ack := AckOf(d);
    run := RunLeads(client, server, [start], d);
  }

  /** An accept may refuse a client that connected: it connects, disconnects and gets its
      FINACK between two looks, and the next look finds no connection and returns -1. */
  lemma SomeAcceptRefuses(client: Addr, server: Addr) returns (run: seq<Session>, k: nat)
    requires client != server
    ensures Run(client, server, run) && k < |run| && run[k].cl.state.CONNECTED? && run[k].sv.state.CONNECTED?
    ensures run[|run| - 1].answer == Some(-1) && run[|run| - 1].sv.client == client && run[|run| - 1].over
  {
    var start := Init(client, server);
    var s := Opens(client, server);
    run := RunLeads(client, server, [start], s);
    k := |run| - 1;
    LeadsSelf(s);
    LeadsTo(s, s, Disconnect);
    var a := Apply(s, Disconnect);
    var fin := Client.Fin(s.cl);
    LeadsTo(s, a, ToServer(fin));
    var b := Apply(a, ToServer(fin));
    LeadsTo(s, b, AcceptLook);
    var longer := RunLeads(client, server, run, Apply(b, AcceptLook));
    assert longer[k] == run[k];
    run := longer;
  }
}
