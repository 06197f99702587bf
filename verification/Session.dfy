/** One connection from SYN to FIN between a fresh client socket and one accept, over a
    network that loses, duplicates, reorders and carries other hosts' segments: whatever
    was ever sent may arrive at any time, any number of times. A DATA segment may also
    arrive with another type, the only single-bit error that can pass the checksum. Each
    event is one critical section of the code. */
module Session {
  import opened Basics
  import opened Segment
  import opened SendBuffer
  import opened Stream
  import Client
  import Server

  datatype Session = Session(
    cl: Client.Tcb,
    sv: Server.Tcb,
    /** Every segment ever sent. */
    net: set<Segment>,
    /** What the sending thread has cut but not yet queued. */
    todo: seq<seq<Byte>>,
    /** Live timer threads. */
    timers: nat,
    /** The rest is history: the caller's sends, all segments ever queued, how many of
        them were freed, the bytes received, what has happened once, and what the accept
        returned. */
    sends: seq<seq<Byte>>,
    queued: seq<Frag>,
    base: nat,
    delivered: seq<Byte>,
    accepted: bool,
    over: bool,
    timedOut: bool,
    wrapped: bool,
    answer: Option<int>)

  datatype Event =
    | Connect | ResendSyn | GiveUpConnect
    | Send(data: seq<Byte>) | QueueNext | SendWindow | TimerFires | TimerExits
    | Disconnect | ResendFin | GiveUpDisconnect | ToClient(m: Segment)
    | Listen | AcceptLook | ToServer(m: Segment) | Receive(length: nat) | CloseWaitEnds
    | Stranger(m: Segment) | TypeHit(m: Segment, kind: Kind)

  function Init(client: Addr, server: Addr): Session {
    Session(Client.Fresh(client), Server.Tcb(server, Server.CLOSED, Addr(0, 0), 0, []),
            {}, [], 0, [], [], 0, [], false, false, false, false, None)
  }

  function SetOf(segs: seq<Segment>): set<Segment> {
    set m | m in segs
  }

  /** The first accept has been answered by some SYN. */
  predicate Joined(s: Session) {
    s.accepted && !s.sv.state.LISTENING?
  }

  ghost predicate Enabled(s: Session, e: Event) {
    match e
    case Connect => s.cl.state.CLOSED? && !s.over
    case ResendSyn => s.cl.state.SYNSENT?
    case GiveUpConnect => s.cl.state.SYNSENT?
    case Send(data) => s.cl.state.CONNECTED? && s.todo == []
    case QueueNext =>
      s.cl.state.CONNECTED? && s.todo != [] && |Bytes(s.queued)| + |s.todo[0]| < WORD32
    case SendWindow => s.cl.state.CONNECTED? && s.cl.buf.unsent <= |s.cl.buf.live|
    case TimerFires => s.timers > 0
    case TimerExits => s.timers > 0 && s.cl.buf.live == []
    case Disconnect => s.cl.state.CONNECTED? && s.todo == []
    case ResendFin => s.cl.state.FINWAIT?
    case GiveUpDisconnect => s.cl.state.FINWAIT?
    case ToClient(m) => m in s.net && m.dst == s.cl.me && Client.MayHandle(s.cl, m)
    case Listen => s.sv.state.CLOSED? && !s.accepted
    case AcceptLook => s.accepted && s.answer.None?
    case ToServer(m) => m in s.net && m.dst == s.sv.me
    case Receive(length) => true
    case CloseWaitEnds => s.sv.state.CLOSEWAIT?
    case Stranger(m) => m.src != s.cl.me && m.src != s.sv.me
    case TypeHit(m, kind) => m in s.net && m.kind.DATA? && MayHit(kind)
  }

  /** The next piece goes to the end of the buffer; an empty buffer starts a timer. */
  function AfterQueue(s: Session): Session
    requires s.todo != []
  {
    s.(cl := s.cl.(buf := Append(s.cl.buf, s.todo[0])),
       queued := s.queued + [Frag(s.cl.buf.nextSeq, s.todo[0])],
       todo := s.todo[1..],
       timers := if s.cl.buf.live == [] then s.timers + 1 else s.timers)
  }

  function AfterAck(s: Session, ack: nat): Session
    requires Acked(s.cl.buf.live, ack) <= s.cl.buf.unsent
  {
    var k := Acked(s.cl.buf.live, ack);
    s.(cl := s.cl.(buf := FreeAcked(s.cl.buf, ack)), base := s.base + k, wrapped := s.wrapped || k > s.cl.buf.unAck)
  }

  function AfterSend(s: Session): Session
    requires s.cl.buf.unsent <= |s.cl.buf.live|
  {
    var (b, out) := SendMax(s.cl.buf);
    s.(cl := s.cl.(buf := b), net := s.net + SetOf(Client.ToSegments(s.cl, out)))
  }

  function AfterTimeout(s: Session): Session {
    var (b, out) := Timeout(s.cl.buf);
    s.(cl := s.cl.(buf := b), net := s.net + SetOf(Client.ToSegments(s.cl, out)), timedOut := true)
  }

  function AfterServer(s: Session, m: Segment): Session {
    var (t, reply) := Server.Handle(s.sv, m);
    s.(sv := t, net := s.net + if reply.Some? then {reply.value} else {})
  }

  function AfterTake(s: Session, m: Segment): Session
    requires !Client.IsAck(s.cl, m)
  {
    s.(cl := Client.Take(s.cl, m))
  }

  ghost function Apply(s: Session, e: Event): Session
    requires Enabled(s, e)
  {
    match e
    case Connect =>
      var (c, syn) := Client.Connect(s.cl, s.sv.me);
      s.(cl := c, net := s.net + {syn.value})
    case ResendSyn => s.(net := s.net + {Client.Syn(s.cl)})
    case GiveUpConnect => s.(cl := s.cl.(state := Client.CLOSED))
    case Send(data) => s.(todo := Fragments(data), sends := s.sends + [data])
    case QueueNext => AfterQueue(s)
    case SendWindow => AfterSend(s)
    case TimerFires => AfterTimeout(s)
    case TimerExits => s.(timers := s.timers - 1)
    case Disconnect =>
      var (c, fin) := Client.Disconnect(s.cl);
      s.(cl := c, net := s.net + {fin.value}, over := true)
    case ResendFin => s.(net := s.net + {Client.Fin(s.cl)})
    case GiveUpDisconnect => s.(cl := s.cl.(state := Client.CLOSED))
    case ToClient(m) =>
      if Client.IsAck(s.cl, m) then AfterAck(s, m.seqNum) else AfterTake(s, m)
    case Listen => s.(sv := Server.StartAccept(s.sv).0, accepted := true)
    case AcceptLook =>
      var (t, answer) := Server.AcceptLook(s.sv);
      s.(sv := t, answer := answer)
    case ToServer(m) => AfterServer(s, m)
    case Receive(length) =>
      var (t, r) := Server.Recv(s.sv, length);
      s.(sv := t, delivered := s.delivered + if r.Bytes? then r.bytes else [])
    case CloseWaitEnds => s.(sv := s.sv.(state := Server.CLOSED))
    case Stranger(m) => s.(net := s.net + {m})
    case TypeHit(m, kind) => s.(net := s.net + {m.(kind := kind)})
  }

  ghost predicate Step(s: Session, t: Session) {
    exists e :: Enabled(s, e) && t == Apply(s, e)
  }

  ghost predicate StepAt(run: seq<Session>, k: nat)
    requires k + 1 < |run|
  {
    Step(run[k], run[k + 1])
  }

  ghost predicate Run(client: Addr, server: Addr, run: seq<Session>) {
    && client != server && |run| > 0 && run[0] == Init(client, server)
    && forall k :: 0 <= k < |run| - 1 ==> StepAt(run, k)
  }

  ghost predicate Path(path: seq<Session>, s: Session, t: Session) {
    && |path| > 0 && path[0] == s && path[|path| - 1] == t
    && forall k :: 0 <= k < |path| - 1 ==> StepAt(path, k)
  }

  /** t may follow from s by some events. */
  ghost predicate Leads(s: Session, t: Session) {
    exists path :: Path(path, s, t)
  }

  lemma LeadsSelf(s: Session)
    ensures Leads(s, s)
  {
    assert Path([s], s, s);
  }

  lemma LeadsOn(s: Session, t: Session, u: Session)
    requires Leads(s, t) && Leads(t, u)
    ensures Leads(s, u)
  {
    var p, q :| Path(p, s, t) && Path(q, t, u);
    var path := p + q[1..];
    forall k | 0 <= k < |path| - 1 ensures StepAt(path, k) {
      if k < |p| - 1 {
        assert StepAt(p, k);
      } else {
        assert StepAt(q, k - (|p| - 1));
      }
    }
    assert Path(path, s, u);
  }

  lemma LeadsByEvent(s: Session, e: Event)
    requires Enabled(s, e)
    ensures Leads(s, Apply(s, e))
  {
    var path := [s, Apply(s, e)];
    assert Step(s, Apply(s, e));
    assert StepAt(path, 0);
    assert Path(path, s, Apply(s, e));
  }

  /** Whatever a run's last state leads to, some longer run reaches. */
  lemma RunLeads(client: Addr, server: Addr, run: seq<Session>, t: Session) returns (more: seq<Session>)
    requires Run(client, server, run) && Leads(run[|run| - 1], t)
    ensures Run(client, server, more) && run <= more && more[|more| - 1] == t
  {
    var path :| Path(path, run[|run| - 1], t);
    more := run + path[1..];
    forall k | 0 <= k < |more| - 1 ensures StepAt(more, k) {
      if k < |run| - 1 {
        assert StepAt(run, k);
      } else {
        assert StepAt(path, k - (|run| - 1));
      }
    }
  }

  // ---------------------------------------------------------------- the invariant

  /** What the callers' sends put into the stream, once cut. */
  function Intended(sends: seq<seq<Byte>>): seq<Byte> {
    if sends == [] then [] else Intended(sends[..|sends| - 1]) + Flatten(Fragments(sends[|sends| - 1]))
  }

  /** How many segments have been sent at least once. */
  ghost function SentCount(s: Session): nat {
    if s.cl.state.CONNECTED? then s.base + s.cl.buf.unsent else |s.queued|
  }

  ghost predicate Sender(s: Session) {
    && s.cl.me != s.sv.me
    && Contiguous(s.queued) && |Bytes(s.queued)| == s.cl.buf.nextSeq < WORD32
    && (if s.cl.state.CONNECTED? then
          s.base <= |s.queued| && s.cl.buf.live == s.queued[s.base..] && s.cl.buf.unsent <= |s.cl.buf.live|
        else
          s.cl.buf.live == [] && s.cl.buf.unsent == 0 && s.todo == [] && (!s.over ==> s.queued == [] && s.base == 0))
    && (s.over ==> s.cl.state.FINWAIT? || s.cl.state.CLOSED?)
    && (s.cl.state.FINWAIT? ==> s.over)
    && (!s.cl.state.CLOSED? ==> s.cl.svr == s.sv.me)
  }

  /** Queued and about to be queued make up what the caller's sends intend. */
  ghost predicate Account(s: Session) {
    Bytes(s.queued) + Flatten(s.todo) == Intended(s.sends)
  }

  /** The outstanding counter against the segments it should count, wrap included. */
  ghost predicate Counter(s: Session) {
    && s.cl.buf.unAck < WORD32
    && (s.cl.buf.live != [] ==> s.timers > 0)
    && (!s.cl.state.CONNECTED? && !s.over ==> s.cl.buf.unAck == 0 && !s.wrapped)
    && (s.cl.state.CONNECTED? ==>
          && s.cl.buf.unsent <= s.cl.buf.unAck + 1
          && (!s.wrapped ==> s.cl.buf.unAck <= s.cl.buf.unsent && s.cl.buf.unAck <= GBN_WINDOW + 1)
          && (!s.timedOut ==> s.cl.buf.unAck == s.cl.buf.unsent && !s.wrapped))
  }

  /** m is one of the first n queued segments. */
  ghost predicate Queued(q: seq<Frag>, n: nat, m: Segment) {
    exists i :: 0 <= i < n && i < |q| && q[i] == Frag(m.seqNum, m.data)
  }

  ghost predicate WireOk(s: Session, m: Segment)
    requires SentCount(s) <= |s.queued|
  {
    && (m.src == s.cl.me ==>
          match m.kind
          case SYN => m.seqNum == 0 || Joined(s)
          case FIN => s.over
          case DATA => Queued(s.queued, SentCount(s), m)
          case DATAACK | OTHER => true
          case _ => false)
    && (m.src == s.sv.me && m.dst == s.cl.me ==>
          && Joined(s) && s.sv.client == s.cl.me && !m.kind.DATA?
          && (m.kind.FINACK? ==> !s.sv.state.CONNECTED?)
          && (m.kind.DATAACK? ==> m.seqNum <= s.sv.expected && Mark(s.queued, SentCount(s), m.seqNum)))
  }

  ghost predicate Wire(s: Session) {
    SentCount(s) <= |s.queued| && forall m :: m in s.net ==> WireOk(s, m)
  }

  ghost predicate Receiver(s: Session) {
    && SentCount(s) <= |s.queued|
    && (!s.accepted ==> s.sv.state.CLOSED?)
    && (!Joined(s) ==> s.sv.recvd == [] && s.delivered == [])
    && |s.sv.recvd| < RECEIVE_BUF_SIZE
    && (Joined(s) && s.sv.client == s.cl.me ==>
          && Mark(s.queued, SentCount(s), s.sv.expected) && s.sv.expected <= |Bytes(s.queued)|
          && s.delivered + s.sv.recvd == Bytes(s.queued)[..s.sv.expected])
    && (s.cl.state.CONNECTED? || s.over ==> Joined(s) && s.sv.client == s.cl.me)
    && (Joined(s) && s.sv.client == s.cl.me && !s.over ==> s.sv.state.CONNECTED?)
    && (s.cl.state.CONNECTED? ==> s.base <= |s.queued| && Offset(s.queued, s.base) <= s.sv.expected)
  }

  ghost predicate Core(s: Session) {
    Sender(s) && Counter(s) && Wire(s) && Receiver(s)
  }

  /** What was freed starts strictly before what the server expects. */
  ghost predicate Freed(s: Session) {
    s.cl.state.CONNECTED? && 0 < s.base <= |s.queued| ==> s.queued[s.base - 1].seqNum < s.sv.expected
  }

  ghost predicate Inv(s: Session) {
    Core(s) && Account(s) && Freed(s)
  }

  lemma InitHolds(client: Addr, server: Addr)
    requires client != server
    ensures Inv(Init(client, server))
  {
  }

  // ---------------------------------------------------------------- what later states keep

  ghost predicate Later(s: Session, t: Session)
    requires SentCount(s) <= |s.queued|
  {
    && t.cl.me == s.cl.me && t.sv.me == s.sv.me
    && s.queued <= t.queued && SentCount(s) <= SentCount(t) <= |t.queued|
    && (s.over ==> t.over)
    && (Joined(s) ==>
          && Joined(t) && t.sv.client == s.sv.client
          && (t.sv.state.CONNECTED? ==> s.sv.state.CONNECTED?)
          && (s.sv.client == s.cl.me ==> s.sv.expected <= t.sv.expected))
  }

  lemma WireLater(s: Session, t: Session, m: Segment)
    requires SentCount(s) <= |s.queued| && WireOk(s, m) && Later(s, t)
    ensures WireOk(t, m)
  {
    if m.src == s.cl.me && m.kind.DATA? {
      var i :| 0 <= i < SentCount(s) && i < |s.queued| && s.queued[i] == Frag(m.seqNum, m.data);
      assert t.queued[i] == s.queued[i];
    }
    if m.src == s.sv.me && m.dst == s.cl.me && m.kind.DATAACK? {
      MarkOfPrefix(s.queued, t.queued, SentCount(s), SentCount(t), m.seqNum);
    }
  }

  /** Segments in flight stay accounted for when the new ones are. */
  lemma WireKeeps(s: Session, t: Session, more: set<Segment>)
    requires Wire(s) && Later(s, t) && t.net == s.net + more
    requires forall m :: m in more ==> WireOk(t, m)
    ensures Wire(t)
  {
    forall m | m in t.net ensures WireOk(t, m) {
      if m in s.net {
        WireLater(s, t, m);
      }
    }
  }

  lemma ReceiverLater(s: Session, t: Session)
    requires Receiver(s) && Later(s, t) && t.sv == s.sv && t.accepted == s.accepted && t.delivered == s.delivered
    requires t.cl.state.CONNECTED? || t.over ==> Joined(s) && s.sv.client == s.cl.me
    requires t.cl.state.CONNECTED? ==> t.base <= |t.queued| && Offset(t.queued, t.base) <= t.sv.expected
    ensures Receiver(t)
  {
    if Joined(s) && s.sv.client == s.cl.me {
      MarkOfPrefix(s.queued, t.queued, SentCount(s), SentCount(t), s.sv.expected);
      assert Bytes(s.queued) == Bytes(t.queued)[..Offset(t.queued, |s.queued|)] by {
        PrefixBytes(t.queued, |s.queued|, |t.queued|);
        assert t.queued[..|t.queued|] == t.queued && t.queued[..|s.queued|] == s.queued;
      }
    }
  }

  // ---------------------------------------------------------------- one event at a time

  /** Segments the client sends from its buffer are queued segments, now sent. */
  lemma SentAreQueued(s: Session, t: Session, from: nat, to: nat, out: seq<Frag>)
    requires SentCount(t) <= |t.queued| && from <= to && t.base + to <= SentCount(t)
    requires out == t.queued[t.base + from..t.base + to] && t.cl.me != t.sv.me
    requires s.cl.me == t.cl.me
    ensures forall m :: m in SetOf(Client.ToSegments(s.cl, out)) ==> WireOk(t, m)
  {
    var segs := Client.ToSegments(s.cl, out);
    forall m | m in SetOf(segs) ensures WireOk(t, m) {
      var i :| 0 <= i < |segs| && m == segs[i];
      assert t.queued[t.base + from + i] == out[i];
    }
  }

  lemma SendWindowMoves(s: Session)
    requires Sender(s) && Counter(s) && SentCount(s) <= |s.queued| && Enabled(s, SendWindow)
    ensures var t := AfterSend(s); Sender(t) && Counter(t) && Later(s, t)
  {
  }

  lemma SendWindowSends(s: Session)
    requires Sender(s) && Wire(s) && Enabled(s, SendWindow) && Later(s, AfterSend(s))
    ensures Wire(AfterSend(s))
  {
    var t := AfterSend(s);
    var (b, out) := SendMax(s.cl.buf);
    var p, k := s.cl.buf.unsent, Room(s.cl.buf);
    assert out == s.queued[s.base + p..s.base + p + k];
    SentAreQueued(s, t, p, p + k, out);
    WireKeeps(s, t, SetOf(Client.ToSegments(s.cl, out)));
  }

  lemma SendWindowKeeps(s: Session)
    requires Core(s) && Enabled(s, SendWindow)
    ensures Core(AfterSend(s))
  {
    SendWindowMoves(s);
    SendWindowSends(s);
    ReceiverLater(s, AfterSend(s));
  }

  lemma TimerFiresSends(s: Session)
    requires Sender(s) && Counter(s) && Wire(s) && Enabled(s, TimerFires)
    ensures var t := AfterTimeout(s); Sender(t) && Counter(t) && Later(s, t) && Wire(t)
  {
    var t := AfterTimeout(s);
    var (b, out) := Timeout(s.cl.buf);
    if s.cl.state.CONNECTED? {
      assert out == s.queued[s.base + 0..s.base + b.unsent];
      SentAreQueued(s, t, 0, b.unsent, out);
    } else {
      assert SetOf(Client.ToSegments(s.cl, out)) == {};
    }
    WireKeeps(s, t, SetOf(Client.ToSegments(s.cl, out)));
  }

  lemma TimerFiresKeeps(s: Session)
    requires Core(s) && Enabled(s, TimerFires)
    ensures Core(AfterTimeout(s))
  {
    TimerFiresSends(s);
    ReceiverLater(s, AfterTimeout(s));
  }

  lemma SenderExtends(s: Session, t: Session, data: seq<Byte>)
    requires Sender(s) && s.cl.state.CONNECTED?
    requires t.queued == s.queued + [Frag(|Bytes(s.queued)|, data)]
    requires t.cl.buf == s.cl.buf.(live := s.cl.buf.live + [Frag(|Bytes(s.queued)|, data)],
                                   nextSeq := |Bytes(s.queued)| + |data|)
    requires t.cl == s.cl.(buf := t.cl.buf) && t.sv == s.sv && t.base == s.base && t.over == s.over
    requires |Bytes(s.queued)| + |data| < WORD32
    ensures Sender(t)
  {
    StreamAppend(s.queued, s.base, data);
  }

  lemma QueueNextExtends(s: Session)
    requires Sender(s) && Enabled(s, QueueNext)
    ensures Sender(AfterQueue(s))
  {
    SmallEnough(|Bytes(s.queued)| + |s.todo[0]|);
    SenderExtends(s, AfterQueue(s), s.todo[0]);
  }

  lemma SmallEnough(n: nat)
    requires n < WORD32
    ensures n % WORD32 == n
  {
  }

  lemma QueueNextCounts(s: Session)
    requires Counter(s) && Enabled(s, QueueNext)
    ensures Counter(AfterQueue(s))
  {
  }

  lemma QueueNextKeeps(s: Session)
    requires Core(s) && Enabled(s, QueueNext)
    ensures Core(AfterQueue(s))
  {
    var t := AfterQueue(s);
    QueueNextExtends(s);
    QueueNextCounts(s);
    WireKeeps(s, t, {});
    OffsetOfPrefix(s.queued, t.queued, s.base);
    ReceiverLater(s, t);
  }

  lemma SendKeeps(s: Session, data: seq<Byte>)
    requires Core(s) && Enabled(s, Send(data))
    ensures Core(Apply(s, Send(data)))
  {
    var t := Apply(s, Send(data));
    WireKeeps(s, t, {});
    ReceiverLater(s, t);
  }

  lemma GiveUpKeeps(s: Session, e: Event)
    requires Core(s) && Enabled(s, e) && (e.Connect? || e.GiveUpConnect? || e.GiveUpDisconnect?)
    ensures Core(Apply(s, e))
  {
    var t := Apply(s, e);
    WireKeeps(s, t, t.net - s.net);
    ReceiverLater(s, t);
  }

  /** Events that only send a control segment, or end an idle timer thread. */
  lemma NetGrows(s: Session, m: Segment)
    requires Core(s) && WireOk(s, m)
    ensures Core(s.(net := s.net + {m}))
  {
    var t := s.(net := s.net + {m});
    WireKeeps(s, t, {m});
    ReceiverLater(s, t);
  }

  /** A hit DATA segment proves that the server was joined; no type it can take is taken
      for anything by a server that is. */
  lemma TypeHitKeeps(s: Session, m: Segment, kind: Kind)
    requires Core(s) && Enabled(s, TypeHit(m, kind))
    ensures Core(Apply(s, TypeHit(m, kind)))
  {
    assert WireOk(s, m);
    NetGrows(s, m.(kind := kind));
  }

  lemma TimerExitsKeeps(s: Session)
    requires Core(s) && Enabled(s, TimerExits)
    ensures Core(s.(timers := s.timers - 1))
  {
    var t := s.(timers := s.timers - 1);
    WireKeeps(s, t, {});
    ReceiverLater(s, t);
  }

  lemma DisconnectKeeps(s: Session)
    requires Core(s) && Enabled(s, Disconnect)
    ensures Core(Apply(s, Disconnect))
  {
    var t := Apply(s, Disconnect);
    WireKeeps(s, t, {Client.Fin(s.cl)});
    ReceiverLater(s, t);
  }

  /** An acknowledgement in flight frees only sent segments, and none that the server has
      not taken. */
  lemma AckIsSafe(s: Session, ack: nat)
    requires Contiguous(s.queued) && s.base + s.cl.buf.unsent <= |s.queued| && s.cl.buf.live == s.queued[s.base..]
    requires Mark(s.queued, s.base + s.cl.buf.unsent, ack) && ack <= s.sv.expected
    requires Offset(s.queued, s.base) <= s.sv.expected
    ensures Acked(s.cl.buf.live, ack) <= s.cl.buf.unsent
    ensures Offset(s.queued, AfterAck(s, ack).base) <= s.sv.expected
  {
    AckStaysBehind(s.queued, s.base, s.cl.buf.unsent, ack);
  }

  lemma AckFrees(s: Session, ack: nat)
    requires Sender(s) && Counter(s) && s.cl.state.CONNECTED? && Acked(s.cl.buf.live, ack) <= s.cl.buf.unsent
    ensures var t := AfterAck(s, ack); Sender(t) && Counter(t) && SentCount(t) == SentCount(s)
  {
    CounterAfterFree(s.cl.buf, ack);
    assert AfterAck(s, ack).cl.buf.live == s.queued[AfterAck(s, ack).base..];
  }

  lemma AckKeeps(s: Session, m: Segment)
    requires Core(s) && Enabled(s, ToClient(m)) && Client.IsAck(s.cl, m)
    ensures Core(AfterAck(s, m.seqNum))
  {
    var t := AfterAck(s, m.seqNum);
    assert WireOk(s, m);
    AckIsSafe(s, m.seqNum);
    AckFrees(s, m.seqNum);
    WireKeeps(s, t, {});
    ReceiverLater(s, t);
  }

  lemma ToClientKeeps(s: Session, m: Segment)
    requires Core(s) && Enabled(s, ToClient(m)) && !Client.IsAck(s.cl, m)
    ensures Core(AfterTake(s, m))
  {
    var t := AfterTake(s, m);
    assert WireOk(s, m);
    if t != s {
      WireKeeps(s, t, {});
      ReceiverLater(s, t);
    }
  }

  lemma ListenKeeps(s: Session)
    requires Core(s) && Enabled(s, Listen)
    ensures Core(Apply(s, Listen))
  {
    WireKeeps(s, Apply(s, Listen), {});
  }

  lemma CloseWaitEndsKeeps(s: Session)
    requires Core(s) && Enabled(s, CloseWaitEnds)
    ensures Core(Apply(s, CloseWaitEnds))
  {
    WireKeeps(s, Apply(s, CloseWaitEnds), {});
  }

  lemma AcceptLookKeeps(s: Session)
    requires Core(s) && Enabled(s, AcceptLook)
    ensures Core(Apply(s, AcceptLook))
  {
    WireKeeps(s, Apply(s, AcceptLook), {});
  }

  lemma ReceiveMoves(s: Session, t: Session)
    requires Core(s) && t == s.(sv := s.sv.(recvd := t.sv.recvd), delivered := t.delivered)
    requires t.delivered + t.sv.recvd == s.delivered + s.sv.recvd && |t.sv.recvd| <= |s.sv.recvd|
    ensures Core(t)
  {
    WireKeeps(s, t, {});
  }

  lemma ReceiveKeeps(s: Session, length: nat)
    requires Core(s) && Enabled(s, Receive(length))
    ensures Core(Apply(s, Receive(length)))
  {
    var t := Apply(s, Receive(length));
    var (_, r) := Server.Recv(s.sv, length);
    Server.RecvSplits(s.sv, length);
    Regroup(s.delivered, if r.Bytes? then r.bytes else [], t.sv.recvd);
    ReceiveMoves(s, t);
  }

  /** Accepting the expected segment moves to the next mark; any other changes nothing. */
  lemma AcceptMovesOn(s: Session, m: Segment)
    requires Contiguous(s.queued) && |Bytes(s.queued)| < WORD32 && Receiver(s)
    requires m.kind.DATA? && Queued(s.queued, SentCount(s), m)
    requires Joined(s) && s.sv.client == s.cl.me
    ensures var t := Server.Accept(s.sv, m);
            && s.sv.expected <= t.expected && Mark(s.queued, SentCount(s), t.expected)
            && t.expected <= |Bytes(s.queued)|
            && s.delivered + t.recvd == Bytes(s.queued)[..t.expected]
  {
    var t := Server.Accept(s.sv, m);
    if t != s.sv {
      var i :| 0 <= i < SentCount(s) && i < |s.queued| && s.queued[i] == Frag(m.seqNum, m.data);
      TakeAt(s.queued, i);
      assert t.expected == Offset(s.queued, i + 1);
      assert s.delivered + (s.sv.recvd + m.data) == s.delivered + s.sv.recvd + m.data;
    }
  }

  lemma DataToServerKeeps(s: Session, m: Segment)
    requires Core(s) && Enabled(s, ToServer(m)) && s.sv.state.CONNECTED? && m.kind.DATA? && m.src == s.sv.client
    ensures Core(AfterServer(s, m))
  {
    var sv := Server.Accept(s.sv, m);
    AnsweredKeeps(s, m, s.(sv := sv, net := s.net + {Server.Reply(sv, DATAACK, sv.expected)}));
  }

  lemma AnsweredKeeps(s: Session, m: Segment, t: Session)
    requires Core(s) && m in s.net && s.sv.state.CONNECTED? && m.kind.DATA? && m.src == s.sv.client
    requires var sv := Server.Accept(s.sv, m);
             t == s.(sv := sv, net := s.net + {Server.Reply(sv, DATAACK, sv.expected)})
    ensures Core(t)
  {
    if m.src == s.cl.me {
      assert WireOk(s, m);
      AcceptMovesOn(s, m);
    }
    WireKeeps(s, t, {Server.Reply(t.sv, DATAACK, t.sv.expected)});
  }

  lemma SynToServerKeeps(s: Session, m: Segment)
    requires Core(s) && Enabled(s, ToServer(m)) && s.sv.state.LISTENING? && m.kind.SYN?
    ensures Core(AfterServer(s, m))
  {
    var t := AfterServer(s, m);
    assert WireOk(s, m);
    assert Offset(s.queued, 0) == 0;
    WireKeeps(s, t, {Server.Reply(t.sv, SYNACK, 0)});
  }

  lemma FinToServerKeeps(s: Session, m: Segment)
    requires Core(s) && Enabled(s, ToServer(m)) && s.sv.state.CONNECTED? && m.kind.FIN? && m.src == s.sv.client
    ensures Core(AfterServer(s, m))
  {
    var t := AfterServer(s, m);
    assert WireOk(s, m);
    WireKeeps(s, t, {Server.Reply(s.sv, FINACK, 0)});
  }

  /** Repeated SYNs and FINs are answered again and change nothing; others are ignored. */
  lemma OtherToServerKeeps(s: Session, m: Segment)
    requires Core(s) && Enabled(s, ToServer(m)) && Server.Handle(s.sv, m).0 == s.sv
    requires !(s.sv.state.CONNECTED? && m.kind.DATA? && m.src == s.sv.client)
    requires !(s.sv.state.LISTENING? && m.kind.SYN?)
    ensures Core(AfterServer(s, m))
  {
    var reply := Server.Handle(s.sv, m).1;
    if reply.Some? {
      RepeatedReplyIsOk(s, m);
      NetGrows(s, reply.value);
    } else {
      assert AfterServer(s, m) == s;
    }
  }

  lemma RepeatedReplyIsOk(s: Session, m: Segment)
    requires Sender(s) && Receiver(s) && Server.Handle(s.sv, m).0 == s.sv && Server.Handle(s.sv, m).1.Some?
    requires !(s.sv.state.CONNECTED? && m.kind.DATA? && m.src == s.sv.client)
    requires !(s.sv.state.LISTENING? && m.kind.SYN?)
    ensures WireOk(s, Server.Handle(s.sv, m).1.value)
  {
  }

  lemma CuttingKeepsAccount(s: Session, data: seq<Byte>)
    requires Account(s) && Enabled(s, Send(data))
    ensures Account(s.(todo := Fragments(data), sends := s.sends + [data]))
  {
    assert (s.sends + [data])[..|s.sends|] == s.sends;
    assert Bytes(s.queued) + Flatten([]) == Bytes(s.queued);
  }

  lemma QueueingKeepsAccount(s: Session)
    requires Account(s) && s.todo != []
    ensures Account(AfterQueue(s))
  {
    BytesAppend(s.queued, Frag(s.cl.buf.nextSeq, s.todo[0]));
    Regroup(Bytes(s.queued), s.todo[0], Flatten(s.todo[1..]));
  }

  /** Only cutting and queueing touch the account. */
  lemma AccountKeeps(s: Session, e: Event)
    requires Account(s) && Enabled(s, e)
    ensures Account(Apply(s, e))
  {
    match e
    case Send(data) => CuttingKeepsAccount(s, data);
    case QueueNext => QueueingKeepsAccount(s);
    case ToClient(m) =>
    case ToServer(m) =>
    case _ =>
  }

  lemma AckFreesStrictly(s: Session, ack: nat)
    requires Freed(s) && s.cl.state.CONNECTED? && s.base <= |s.queued| && s.cl.buf.live == s.queued[s.base..]
    requires Acked(s.cl.buf.live, ack) <= s.cl.buf.unsent && ack <= s.sv.expected
    ensures Freed(AfterAck(s, ack))
  {
    var k := Acked(s.cl.buf.live, ack);
    if k > 0 {
      assert s.cl.buf.live[k - 1] == s.queued[s.base + k - 1];
    }
  }

  lemma FreedKeeps(s: Session, e: Event)
    requires Core(s) && Freed(s) && Enabled(s, e)
    ensures Freed(Apply(s, e))
  {
    match e
    case ToClient(m) =>
      if Client.IsAck(s.cl, m) {
        assert WireOk(s, m);
        AckFreesStrictly(s, m.seqNum);
      }
    case QueueNext =>
      var t := AfterQueue(s);
      assert s.base > 0 ==> t.queued[s.base - 1] == s.queued[s.base - 1];
    case ToServer(m) =>
      if s.cl.state.CONNECTED? {
        ServerMovesOn(s, m);
      }
    case _ =>
  }

  lemma ServerMovesOn(s: Session, m: Segment)
    requires Core(s) && Enabled(s, ToServer(m)) && s.cl.state.CONNECTED?
    ensures s.sv.expected <= Apply(s, ToServer(m)).sv.expected
  {
    if m.kind.DATA? && m.src == s.cl.me {
      assert WireOk(s, m);
      AcceptMovesOn(s, m);
    }
  }

  lemma StepKeeps(s: Session, e: Event)
    requires Inv(s) && Enabled(s, e)
    ensures Inv(Apply(s, e))
  {
    AccountKeeps(s, e);
    FreedKeeps(s, e);
    CoreKeeps(s, e);
  }

  lemma CoreKeeps(s: Session, e: Event)
    requires Core(s) && Enabled(s, e)
    ensures Core(Apply(s, e))
  {
    match e {
      case Connect | GiveUpConnect | GiveUpDisconnect => GiveUpKeeps(s, e);
      case ResendSyn => NetGrows(s, Client.Syn(s.cl));
      case ResendFin => NetGrows(s, Client.Fin(s.cl));
      case Stranger(m) => NetGrows(s, m);
      case TypeHit(m, kind) => TypeHitKeeps(s, m, kind);
      case TimerExits => TimerExitsKeeps(s);
      case Send(data) => SendKeeps(s, data);
      case QueueNext => QueueNextKeeps(s);
      case SendWindow => SendWindowKeeps(s);
      case TimerFires => TimerFiresKeeps(s);
      case Disconnect => DisconnectKeeps(s);
      case ToClient(m) =>
        if Client.IsAck(s.cl, m) {
          AckKeeps(s, m);
        } else {
          ToClientKeeps(s, m);
        }
      case Listen => ListenKeeps(s);
      case AcceptLook => AcceptLookKeeps(s);
      case ToServer(m) =>
        if s.sv.state.CONNECTED? && m.kind.DATA? && m.src == s.sv.client {
          DataToServerKeeps(s, m);
        } else if s.sv.state.LISTENING? && m.kind.SYN? {
          SynToServerKeeps(s, m);
        } else if s.sv.state.CONNECTED? && m.kind.FIN? && m.src == s.sv.client {
          FinToServerKeeps(s, m);
        } else {
          OtherToServerKeeps(s, m);
        }
      case Receive(length) => ReceiveKeeps(s, length);
      case CloseWaitEnds => CloseWaitEndsKeeps(s);
    }
  }

  lemma RunStepKeeps(client: Addr, server: Addr, run: seq<Session>, k: nat)
    requires Run(client, server, run) && k + 1 < |run| && Inv(run[k])
    ensures Inv(run[k + 1]) && run[k + 1].cl.me == run[k].cl.me && run[k + 1].sv.me == run[k].sv.me
  {
    assert StepAt(run, k);
    var e :| Enabled(run[k], e) && run[k + 1] == Apply(run[k], e);
    AddressesKeep(run[k], e);
    StepKeeps(run[k], e);
  }

  lemma AddressesKeep(s: Session, e: Event)
    requires Enabled(s, e)
    ensures Apply(s, e).cl.me == s.cl.me && Apply(s, e).sv.me == s.sv.me
  {
    match e
    case ToClient(m) =>
    case ToServer(m) =>
    case _ =>
  }

  lemma {:induction false} RunKeeps(client: Addr, server: Addr, run: seq<Session>, k: nat)
    requires Run(client, server, run) && k < |run|
    ensures Inv(run[k]) && run[k].cl.me == client && run[k].sv.me == server
  {
    if k == 0 {
      InitHolds(client, server);
    } else {
      RunKeeps(client, server, run, k - 1);
      RunStepKeeps(client, server, run, k - 1);
    }
  }
}
