/** Progress of a connection: a timeout whose segments arrive in order, and whose last
    acknowledgement comes back, shortens the send buffer; repeated, it drains it. A resent
    SYN or FIN that gets through completes opening and closing. */
module Progress {
  import opened Basics
  import opened Segment
  import opened SendBuffer
  import opened Stream
  import opened Session
  import Client
  import Server

  /** Connected, nothing empty left in the buffer, and room at the server: for the rest of
      the stream at once, or, when its application reads meanwhile, for any one segment. */
  ghost predicate Able(s: Session, reading: bool) {
    && Core(s) && s.cl.state.CONNECTED?
    && (forall i :: s.base <= i < |s.queued| ==> s.queued[i].data != [])
    && s.sv.expected <= s.cl.buf.nextSeq
    && if reading then
         forall i :: s.base <= i < |s.queued| ==> |s.queued[i].data| < RECEIVE_BUF_SIZE
       else
         |s.sv.recvd| + (s.cl.buf.nextSeq - s.sv.expected) < RECEIVE_BUF_SIZE
  }

  function Piece(s: Session, i: nat): Segment
    requires i < |s.queued|
  {
    Client.ToSegment(s.cl, s.queued[i])
  }

  function AckOf(s: Session): Segment {
    Segment(s.sv.me, s.cl.me, DATAACK, s.sv.expected, [])
  }

  /** How many segments a timeout sends. */
  function Burst(s: Session): nat {
    Min(s.cl.buf.unAck + 1, |s.cl.buf.live|)
  }

  /** Segment i may be delivered to the server, which has everything before it. */
  ghost predicate Due(s: Session, i: nat, reading: bool) {
    && (reading ==> s.sv.recvd == [])
    && Able(s, reading) && s.base <= i < |s.queued| && Piece(s, i) in s.net
    && Offset(s.queued, i) <= s.sv.expected
  }

  lemma DueIsEnabled(s: Session, i: nat, reading: bool)
    requires Due(s, i, reading)
    ensures Enabled(s, ToServer(Piece(s, i)))
    ensures Core(Apply(s, ToServer(Piece(s, i))))
  {
    CoreKeeps(s, ToServer(Piece(s, i)));
  }

  /** A reading application takes all that the server holds. */
  ghost function Ready(s: Session, reading: bool): Session {
    if reading then Apply(s, Receive(|s.sv.recvd|)) else s
  }

  lemma ReadyKeeps(s: Session, reading: bool)
    requires Able(s, reading)
    ensures var r := Ready(s, reading);
            && Able(r, reading) && r.cl == s.cl && r.queued == s.queued && r.base == s.base && r.net == s.net
            && r.wrapped == s.wrapped && r.sv == s.sv.(recvd := r.sv.recvd)
            && (if reading then r.sv.recvd == [] else r.delivered == s.delivered)
            && Leads(s, r)
  {
    LeadsSelf(s);
    if reading {
      CoreKeeps(s, Receive(|s.sv.recvd|));
      LeadsByEvent(s, Receive(|s.sv.recvd|));
    }
  }

  /** Delivering it, the server has it too, acknowledges it, and keeps its room. */
  lemma ServeOne(s: Session, i: nat, reading: bool)
    requires Due(s, i, reading)
    ensures Enabled(s, ToServer(Piece(s, i)))
    ensures var t := Apply(s, ToServer(Piece(s, i)));
            && Able(t, reading) && t.cl == s.cl && t.queued == s.queued && t.base == s.base
            && t.wrapped == s.wrapped && t.delivered == s.delivered
            && s.net <= t.net && AckOf(t) in t.net
            && Offset(s.queued, i + 1) <= t.sv.expected
            && forall k :: 0 <= k < |s.queued| && Piece(s, k) in s.net ==> Piece(t, k) in t.net
  {
    var m := Piece(s, i);
    var t := Apply(s, ToServer(m));
    DueIsEnabled(s, i, reading);
    assert InPlace(s.queued, i);
    assert WireOk(s, m);
    AcceptMovesOn(s, m);
    TakeAt(s.queued, i);
    if m.seqNum != s.sv.expected {
      MarksSeparate(s.queued, SentCount(s), s.sv.expected, i);
    }
  }

  /** Segment i delivered, after the application has read, if it does. */
  ghost function ServedOne(s: Session, i: nat, reading: bool): (t: Session)
    requires Able(s, reading) && s.base <= i < |s.queued| && Piece(s, i) in s.net
    requires Offset(s.queued, i) <= s.sv.expected
    ensures Able(t, reading) && t.cl == s.cl && t.queued == s.queued && t.base == s.base && t.wrapped == s.wrapped
    ensures s.net <= t.net && AckOf(t) in t.net && Offset(s.queued, i + 1) <= t.sv.expected && Leads(s, t)
    ensures !reading ==> t.delivered == s.delivered
  {
    ReadyKeeps(s, reading);
    var r := Ready(s, reading);
    assert Piece(r, i) == Piece(s, i);
    ServeOne(r, i, reading);
    var t := Apply(r, ToServer(Piece(r, i)));
    LeadsByEvent(r, ToServer(Piece(r, i)));
    LeadsOn(s, r, t);
    t
  }

  /** The segments from i up to j delivered in order. */
  ghost function Serve(s: Session, i: nat, j: nat, reading: bool): (t: Session)
    requires i <= j <= |s.queued| && Able(s, reading) && s.base <= i && Offset(s.queued, i) <= s.sv.expected
    requires forall k :: i <= k < j ==> Piece(s, k) in s.net
    ensures Able(t, reading) && t.cl == s.cl && t.queued == s.queued && t.base == s.base && t.wrapped == s.wrapped
    ensures Offset(s.queued, j) <= t.sv.expected && Leads(s, t)
    ensures i < j ==> AckOf(t) in t.net
    ensures !reading ==> t.delivered == s.delivered
    decreases j - i
  {
    if i == j then
      LeadsSelf(s);
      s
    else
    var u := ServedOne(s, i, reading);
    assert forall k :: i < k < j ==> Piece(s, k) in s.net && Piece(u, k) == Piece(s, k);
    var t := Serve(u, i + 1, j, reading);
    LeadsOn(s, u, t);
    t
  }

  lemma BurstIsSent(s: Session, reading: bool)
    requires Able(s, reading) && s.cl.buf.live != []
    ensures Enabled(s, TimerFires)
    ensures var t := Apply(s, TimerFires);
            && Able(t, reading) && t.queued == s.queued && t.base == s.base && t.sv == s.sv
            && t.cl.buf.live == s.cl.buf.live && t.delivered == s.delivered
            && var end := s.base + Burst(s);
            && s.base < end <= |t.queued| && Offset(t.queued, t.base) <= t.sv.expected
            && forall k :: t.base <= k < end ==> Piece(t, k) in t.net
  {
    var t := Apply(s, TimerFires);
    CoreKeeps(s, TimerFires);
    var (b, out) := Timeout(s.cl.buf);
    var segs := Client.ToSegments(s.cl, out);
    forall k | t.base <= k < t.base + Burst(s) ensures Piece(t, k) in t.net {
      assert segs[k - t.base] == Piece(t, k);
    }
  }

  /** The timer fires and its burst reaches the server in order; also where it ends. */
  ghost function Served(s: Session, reading: bool): (r: (Session, nat))
    requires Able(s, reading) && s.cl.buf.live != []
    ensures Able(r.0, reading) && r.0.queued == s.queued && r.0.base == s.base && |r.0.cl.buf.live| == |s.cl.buf.live|
    ensures r.0.cl.buf.unAck == s.cl.buf.unAck && Leads(s, r.0)
    ensures !reading ==> r.0.delivered == s.delivered
    ensures AckOf(r.0) in r.0.net
    ensures r.1 == s.base + Burst(s) && s.base < r.1 <= |s.queued| && Offset(s.queued, r.1) <= r.0.sv.expected
  {
    BurstIsSent(s, reading);
    var u, end := Apply(s, TimerFires), s.base + Burst(s);
    var t := Serve(u, u.base, end, reading);
    LeadsByEvent(s, TimerFires);
    LeadsOn(s, u, t);
    (t, end)
  }

  /** The acknowledgement of everything the server has comes back. */
  ghost function Answered(s: Session, end: nat, reading: bool): (t: Session)
    requires Able(s, reading) && AckOf(s) in s.net && s.base < end <= |s.queued|
    requires Offset(s.queued, end) <= s.sv.expected
    ensures Able(t, reading) && t.queued == s.queued && end <= t.base
    ensures |t.cl.buf.live| <= |s.cl.buf.live| - (end - s.base)
    ensures end - s.base > s.cl.buf.unAck ==> t.wrapped
    ensures Leads(s, t) && t.delivered == s.delivered
  {
    AckFreesBurst(s, end, reading);
    LeadsByEvent(s, ToClient(AckOf(s)));
    Apply(s, ToClient(AckOf(s)))
  }

  /** One round: a served burst, and its last acknowledgement. */
  ghost function Round(s: Session, reading: bool): (t: Session)
    requires Able(s, reading) && s.cl.buf.live != []
    ensures Able(t, reading) && t.queued == s.queued
    ensures |t.cl.buf.live| <= |s.cl.buf.live| - Burst(s) < |s.cl.buf.live|
    ensures s.cl.buf.unAck < |s.cl.buf.live| ==> t.wrapped
    ensures Leads(s, t) && (!reading ==> t.delivered == s.delivered)
  {
    var (served, end) := Served(s, reading);
    var t := Answered(served, end, reading);
    LeadsOn(s, served, t);
    t
  }

  lemma AckFreesBurst(s: Session, end: nat, reading: bool)
    requires Able(s, reading) && AckOf(s) in s.net && s.base < end <= |s.queued|
    requires Offset(s.queued, end) <= s.sv.expected
    ensures Enabled(s, ToClient(AckOf(s)))
    ensures Apply(s, ToClient(AckOf(s))) == AfterAck(s, s.sv.expected)
    ensures var t := AfterAck(s, s.sv.expected);
            && Able(t, reading) && end <= t.base
            && |t.cl.buf.live| == |s.queued| - t.base && |s.cl.buf.live| == |s.queued| - s.base
  {
    var m := AckOf(s);
    assert WireOk(s, m);
    AckIsSafe(s, s.sv.expected);
    AckKeeps(s, m);
    AckReaches(s.queued, s.base, end, s.sv.expected);
  }

  /** Rounds until the buffer is empty. */
  ghost function Drain(s: Session, reading: bool): (r: (Session, nat))
    requires Able(s, reading)
    ensures Able(r.0, reading) && r.0.cl.buf.live == [] && r.0.queued == s.queued
    ensures r.1 <= |s.cl.buf.live| && Leads(s, r.0)
    ensures !reading ==> r.0.delivered == s.delivered
    decreases |s.cl.buf.live|
  {
    if s.cl.buf.live == [] then
      LeadsSelf(s);
      (s, 0)
    else
    var u := Round(s, reading);
    var (t, n) := Drain(u, reading);
    LeadsOn(s, u, t);
    (t, n + 1)
  }

  /** At most as many rounds as there are queued segments empty the buffer, and the server
      then has the whole stream. */
  lemma DrainDelivers(s: Session, reading: bool)
    requires Able(s, reading)
    ensures var (t, rounds) := Drain(s, reading);
            && rounds <= |s.cl.buf.live| && Leads(s, t)
            && t.sv.expected == t.cl.buf.nextSeq
            && t.delivered + t.sv.recvd == Bytes(s.queued)
  {
    EmptyMeansDelivered(Drain(s, reading).0, reading);
  }

  lemma EmptyMeansDelivered(s: Session, reading: bool)
    requires Able(s, reading) && s.cl.buf.live == []
    ensures s.sv.expected == s.cl.buf.nextSeq
    ensures s.delivered + s.sv.recvd == Bytes(s.queued)
  {
    assert s.base == |s.queued|;
    assert s.queued[..|s.queued|] == s.queued;
    assert Bytes(s.queued)[..s.sv.expected] == Bytes(s.queued);
  }

  // ---------------------------------------------------------------- opening and closing

  /** A segment delivered to the server, and its answer, if there is one, to the client. */
  ghost function Exchange(s: Session, m: Segment): Session
    requires m in s.net && m.src == s.cl.me && m.dst == s.sv.me && !m.kind.DATA? && !m.kind.DATAACK?
  {
    var t := Apply(s, ToServer(m));
    var reply := Server.Handle(s.sv, m).1;
    if reply.Some? then Apply(t, ToClient(reply.value)) else t
  }

  lemma SynIsAnswered(s: Session)
    requires Inv(s) && s.cl.state.SYNSENT? && s.cl.svr == s.sv.me && Client.Syn(s.cl) in s.net
    ensures var t := Exchange(s, Client.Syn(s.cl));
            && (t.cl.state.CONNECTED? <==>
                  s.sv.state.LISTENING? || (s.sv.state.CONNECTED? && s.sv.client == s.cl.me))
            && (t.cl.state.CONNECTED? ==> t.sv.state.CONNECTED? && t.sv.client == s.cl.me)
  {
  }

  lemma ExchangeKeeps(s: Session, m: Segment)
    requires Inv(s) && m in s.net && m.src == s.cl.me && m.dst == s.sv.me && !m.kind.DATA? && !m.kind.DATAACK?
    ensures Inv(Exchange(s, m))
  {
    StepKeeps(s, ToServer(m));
    var reply := Server.Handle(s.sv, m).1;
    if reply.Some? {
      StepKeeps(Apply(s, ToServer(m)), ToClient(reply.value));
    }
  }

  /** However often SYNs and answers were lost before, one resent SYN that gets through
      both ways connects, exactly when the server listens or has recorded this client. */
  lemma ResentSynConnects(client: Addr, server: Addr, run: seq<Session>, k: nat)
    requires Run(client, server, run) && k < |run| && run[k].cl.state.SYNSENT?
    ensures run[k].cl.me == client && run[k].cl.svr == server && run[k].sv.me == server
    ensures var s, t := run[k], Exchange(Apply(run[k], ResendSyn), Client.Syn(run[k].cl));
            && (t.cl.state.CONNECTED? <==>
                  s.sv.state.LISTENING? || (s.sv.state.CONNECTED? && s.sv.client == client))
            && (t.cl.state.CONNECTED? ==> t.sv.state.CONNECTED? && t.sv.client == client && Inv(t))
  {
    RunKeeps(client, server, run, k);
    StepKeeps(run[k], ResendSyn);
    SynIsAnswered(Apply(run[k], ResendSyn));
    ExchangeKeeps(Apply(run[k], ResendSyn), Client.Syn(run[k].cl));
  }

  /** One resent FIN that gets through both ways completes a disconnect, exactly when the
      server's wait has not ended: it answers FINs again until then. */
  lemma ResentFinDisconnects(client: Addr, server: Addr, run: seq<Session>, k: nat)
    requires Run(client, server, run) && k < |run| && run[k].cl.state.FINWAIT?
    ensures run[k].cl.me == client && run[k].cl.svr == server && run[k].sv.me == server
    ensures var s, t := run[k], Exchange(Apply(run[k], ResendFin), Client.Fin(run[k].cl));
            && (t.cl.state.CLOSED? <==> !s.sv.state.CLOSED?)
            && (t.cl.state.CLOSED? ==> t.sv.state.CLOSEWAIT?)
  {
    RunKeeps(client, server, run, k);
    assert Receiver(run[k]);
  }
}
