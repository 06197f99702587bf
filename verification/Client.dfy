/** The client's side of a connection: its state machine as pure steps, and the control
    block that refines them. */
module Client {
  import opened Segment
  import opened SendBuffer

  datatype State = CLOSED | SYNSENT | CONNECTED | FINWAIT

  datatype Tcb = Tcb(me: Addr, svr: Addr, state: State, buf: Buf)

  function Fresh(me: Addr): Tcb {
    Tcb(me, Addr(0, 0), CLOSED, Buf([], 0, 0, 0))
  }

  function ToSegment(c: Tcb, f: Frag): Segment {
    Segment(c.me, c.svr, DATA, f.seqNum, f.data)
  }

  function ToSegments(c: Tcb, fs: seq<Frag>): (r: seq<Segment>)
    ensures |r| == |fs| && forall i :: 0 <= i < |r| ==> r[i] == ToSegment(c, fs[i])
  {
    seq(|fs|, i requires 0 <= i < |fs| => ToSegment(c, fs[i]))
  }

  function Syn(c: Tcb): Segment {
    Segment(c.me, c.svr, SYN, c.buf.nextSeq, [])
  }

  function Fin(c: Tcb): Segment {
    Segment(c.me, c.svr, FIN, 0, [])
  }

  /** Only a closed socket may connect; the SYN carries the next sequence number. */
  function Connect(c: Tcb, svr: Addr): (Tcb, Option<Segment>) {
    if c.state.CLOSED? then
      var t := c.(svr := svr, state := SYNSENT);
      (t, Some(Syn(t)))
    else
      (c, None)
  }

  /** Disconnecting drops the send buffer, acknowledged or not, and sends a FIN. */
  function Disconnect(c: Tcb): (Tcb, Option<Segment>) {
    if c.state.CONNECTED? then
      (c.(state := FINWAIT, buf := Clear(c.buf)), Some(Fin(c)))
    else
      (c, None)
  }

  /** Freed segments must have been sent; see SendQueue.Free. */
  ghost predicate MayHandle(c: Tcb, m: Segment) {
    IsAck(c, m) ==> Acked(c.buf.live, m.seqNum) <= c.buf.unsent <= |c.buf.live|
  }

  predicate IsAck(c: Tcb, m: Segment) {
    c.state.CONNECTED? && m.kind.DATAACK? && m.src == c.svr
  }

  /** The handler's first critical section: the state changes, and the freeing. */
  function Take(c: Tcb, m: Segment): Tcb
    requires MayHandle(c, m)
  {
    if m.src != c.svr then c else
    match c.state
    case CLOSED => c
    case SYNSENT => if m.kind.SYNACK? then c.(state := CONNECTED) else c
    case CONNECTED => if m.kind.DATAACK? then c.(buf := FreeAcked(c.buf, m.seqNum)) else c
    case FINWAIT => if m.kind.FINACK? then c.(state := CLOSED) else c
  }

  /** One segment through the handler, and the segments it makes the client send: the
      second critical section runs when something is still unsent. */
  function Handle(c: Tcb, m: Segment): (Tcb, seq<Segment>)
    requires MayHandle(c, m)
  {
    var t := Take(c, m);
    if IsAck(c, m) && t.buf.unsent < |t.buf.live| then
      var (b, out) := SendMax(t.buf);
      (t.(buf := b), ToSegments(c, out))
    else
      (t, [])
  }

  // ---------------------------------------------------------------- what the steps mean

  /** Exactly which segments change the client's state; all but acknowledgements leave the
      send buffer alone and send nothing. */
  lemma EveryChange(c: Tcb, m: Segment)
    requires MayHandle(c, m)
    ensures var (t, out) := Handle(c, m);
            var opens, closes := c.state.SYNSENT? && m.kind.SYNACK? && m.src == c.svr,
                                 c.state.FINWAIT? && m.kind.FINACK? && m.src == c.svr;
            && t.me == c.me && t.svr == c.svr
            && t.state == (if opens then CONNECTED else if closes then CLOSED else c.state)
            && (!IsAck(c, m) ==> t.buf == c.buf && out == [])
  {
  }

  lemma AckIsHandled(c: Tcb, m: Segment)
    requires MayHandle(c, m) && IsAck(c, m)
    ensures var (b, fs) := HandleAck(c.buf, m.seqNum);
            Handle(c, m) == (c.(buf := b), ToSegments(c, fs))
  {
  }

  /** What an acknowledgement makes the client do: free what it covers, and send the unsent
      segments, as DATA to the server and in order, until none is left or more than
      GBN_WINDOW are counted. */
  lemma AckIsAnswered(c: Tcb, m: Segment)
    requires MayHandle(c, m) && IsAck(c, m)
    ensures var (t, out) := Handle(c, m);
            var k := |c.buf.live| - |t.buf.live|;
            && t == c.(buf := HandleAck(c.buf, m.seqNum).0) && 0 <= k <= c.buf.unsent && t.buf.live == c.buf.live[k..]
            && (forall i :: 0 <= i < k ==> c.buf.live[i].seqNum < m.seqNum)
            && (t.buf.live != [] ==> t.buf.live[0].seqNum >= m.seqNum)
            && t.buf.unsent == c.buf.unsent - k + |out| <= |t.buf.live|
            && (t.buf.unsent == |t.buf.live| || t.buf.unAck > GBN_WINDOW)
            && (forall i :: 0 <= i < |out| ==>
                  && out[i].src == c.me && out[i].dst == c.svr && out[i].kind == DATA
                  && out[i].seqNum == c.buf.live[c.buf.unsent + i].seqNum
                  && out[i].data == c.buf.live[c.buf.unsent + i].data)
  {
    HandleAckMeans(c.buf, m.seqNum);
    var (b, fs) := HandleAck(c.buf, m.seqNum);
    AckIsHandled(c, m);
    var k := |c.buf.live| - |b.live|;
    forall i | 0 <= i < |fs| ensures fs[i] == c.buf.live[c.buf.unsent + i] {
      assert fs[i] == b.live[c.buf.unsent - k + i];
    }
  }

  /** Connecting: only from the closed state, and then a SYN with the next number goes to
      the server given; otherwise nothing changes and nothing is sent. */
  lemma ConnectMeans(c: Tcb, svr: Addr)
    ensures var (t, syn) := Connect(c, svr);
            && (syn.Some? <==> c.state == CLOSED)
            && (if syn.Some? then
                  && t.state == SYNSENT && t.svr == svr && t.(state := c.state, svr := c.svr) == c
                  && syn.value.src == c.me && syn.value.dst == svr && syn.value.kind == SYN
                  && syn.value.seqNum == c.buf.nextSeq && syn.value.data == []
                else
                  t == c)
  {
  }

  /** Disconnecting: only from the connected state, and then a FIN goes to the server and
      the send buffer is emptied, its counter and next number kept. */
  lemma DisconnectMeans(c: Tcb)
    ensures var (t, fin) := Disconnect(c);
            && (fin.Some? <==> c.state == CONNECTED)
            && (if fin.Some? then
                  && t.state == FINWAIT && t.buf.live == [] && t.buf.unsent == 0
                  && t.buf.unAck == c.buf.unAck && t.buf.nextSeq == c.buf.nextSeq
                  && t.me == c.me && t.svr == c.svr
                  && fin.value.src == c.me && fin.value.dst == c.svr && fin.value.kind == FIN && fin.value.data == []
                else
                  t == c)
  {
  }

  // ---------------------------------------------------------------- the control block

  class ClientTcb {
    const me: Addr
    var svr: Addr
    var state: State
    const buf: SendQueue

    ghost predicate Valid()
      reads this, buf, buf.nodes
    {
      buf.Valid()
    }

    ghost function Value(): Tcb
      reads this, buf
    {
      Tcb(me, svr, state, buf.Value())
    }

    constructor (me: Addr)
      ensures Valid() && Value() == Fresh(me) && fresh(buf)
    {
      this.me, svr, state := me, Addr(0, 0), CLOSED;
      buf := new SendQueue();
    }

    /** The first part of connecting; None means the call fails with -1. */
    method StartConnect(svr: Addr) returns (syn: Option<Segment>)
      requires Valid()
      modifies this
      ensures Valid() && (Value(), syn) == Connect(old(Value()), svr)
    {
      if state != CLOSED {
        return None;
      }
      this.svr, state := svr, SYNSENT;
      return Some(Segment(me, svr, SYN, buf.nextSeq, []));
    }

    /** Queues the caller's bytes and sends what the window allows; false stands for -1. */
    method Send(data: seq<Byte>) returns (ok: bool, out: seq<Segment>)
      requires Valid()
      modifies buf, buf.nodes
      ensures Valid()
      ensures ok <==> old(state).CONNECTED?
      ensures !ok || data == [] ==> Value() == old(Value()) && out == []
      ensures ok && data != [] ==>
                var b := AppendAll(old(buf.Value()), Fragments(data));
                && b.unsent <= |b.live|
                && Value() == old(Value()).(buf := SendMax(b).0)
                && out == ToSegments(old(Value()), SendMax(b).1)
    {
      if state != CONNECTED {
        return false, [];
      }
      if |data| == 0 {
        return true, [];
      }
      buf.QueueAll(data);
      var fs := buf.SendMaxSegments();
      return true, Wrap(fs);
    }

    function Wrap(fs: seq<Frag>): (r: seq<Segment>)
      reads this, buf
      ensures r == ToSegments(Value(), fs)
    {
      seq(|fs|, i requires 0 <= i < |fs| reads this => Segment(me, svr, DATA, fs[i].seqNum, fs[i].data))
    }

    /** One pass of the segment handler's loop. */
    method HandleSegment(m: Segment) returns (out: seq<Segment>)
      requires Valid() && MayHandle(Value(), m)
      modifies this, buf
      ensures Valid()
      ensures Value() == Handle(old(Value()), m).0 && out == Handle(old(Value()), m).1
    {
      out := [];
      match state {
        case CLOSED =>
        case SYNSENT =>
          if m.kind.SYNACK? && m.src == svr {
            state := CONNECTED;
          }
        case CONNECTED =>
          if m.kind.DATAACK? && m.src == svr {
            var fs := buf.Acknowledge(m.seqNum);
            out := Wrap(fs);
            assert out == ToSegments(old(Value()), fs);
          }
        case FINWAIT =>
          if m.kind.FINACK? && m.src == svr {
            state := CLOSED;
          }
      }
    }

    /** The first part of disconnecting; None means the call fails with -1. */
    method StartDisconnect() returns (fin: Option<Segment>)
      requires Valid()
      modifies this, buf
      ensures Valid() && (Value(), fin) == Disconnect(old(Value()))
    {
      if state != CONNECTED {
        return None;
      }
      buf.Drop();
      state := FINWAIT;
      return Some(Segment(me, svr, FIN, 0, []));
    }
  }
}
