/** The server's side of a connection: the segment handler as a pure step, and the control
    block with its moving receive pointer that refines it. */
module Server {
  import opened Basics
  import opened Segment

  datatype State = CLOSED | LISTENING | CONNECTED | CLOSEWAIT

  /** recvd is what the receive buffer holds, oldest byte first. */
  datatype Tcb = Tcb(me: Addr, state: State, client: Addr, expected: nat, recvd: seq<Byte>)

  function Reply(s: Tcb, kind: Kind, seqNum: nat): Segment {
    Segment(s.me, s.client, kind, seqNum, [])
  }

  /** A DATA segment of the recorded client. */
  function Accept(s: Tcb, m: Segment): Tcb {
    if m.seqNum == s.expected && |m.data| + |s.recvd| < RECEIVE_BUF_SIZE then
      s.(recvd := s.recvd + m.data, expected := (s.expected + |m.data|) % WORD32)
    else
      s
  }

  /** One segment through the handler: the new control block and the reply. */
  function Handle(s: Tcb, m: Segment): (Tcb, Option<Segment>) {
    match s.state
    case CLOSED => (s, None)
    case LISTENING =>
      if m.kind.SYN? then
        var t := s.(state := CONNECTED, client := m.src, expected := m.seqNum);
        (t, Some(Reply(t, SYNACK, 0)))
      else
        (s, None)
    case CONNECTED =>
      if m.kind.SYN? && m.src == s.client then
        (s, Some(Reply(s, SYNACK, 0)))
      else if m.kind.FIN? && m.src == s.client then
        (s.(state := CLOSEWAIT), Some(Reply(s, FINACK, 0)))
      else if m.kind.DATA? && m.src == s.client then
        var t := Accept(s, m);
        (t, Some(Reply(s, DATAACK, t.expected)))
      else
        (s, None)
    case CLOSEWAIT =>
      if m.kind.FIN? && m.src == s.client then (s, Some(Reply(s, FINACK, 0))) else (s, None)
  }

  /** Exactly which segments are answered, and with what: to their sender, the reply that
      belongs to their kind; every DATA segment of the recorded client, whether expected,
      early, old or too large, with the number that is expected after it. */
  lemma EveryAnswer(s: Tcb, m: Segment)
    ensures var (t, reply) := Handle(s, m);
            && (reply.Some? <==>
                  || (s.state.LISTENING? && m.kind.SYN?)
                  || (s.state.CONNECTED? && m.src == s.client && (m.kind.SYN? || m.kind.FIN? || m.kind.DATA?))
                  || (s.state.CLOSEWAIT? && m.src == s.client && m.kind.FIN?))
            && (reply.Some? ==>
                  && reply.value.src == s.me && reply.value.dst == m.src && reply.value.data == []
                  && (m.kind.SYN? ==> reply.value.kind == SYNACK && reply.value.seqNum == 0)
                  && (m.kind.FIN? ==> reply.value.kind == FINACK && reply.value.seqNum == 0)
                  && (m.kind.DATA? ==> reply.value.kind == DATAACK && reply.value.seqNum == t.expected))
  {
  }

  /** A segment is taken into the stream. */
  predicate Takes(s: Tcb, m: Segment) {
    && s.state.CONNECTED? && m.kind.DATA? && m.src == s.client
    && m.seqNum == s.expected && |s.recvd| + |m.data| < RECEIVE_BUF_SIZE
  }

  /** Exactly what a segment changes: a SYN opens a listening socket, the recorded client's
      FIN closes a connected one, its next DATA segment is appended if it fits. */
  lemma EveryChange(s: Tcb, m: Segment)
    ensures var t := Handle(s, m).0;
            var opens, closes := s.state.LISTENING? && m.kind.SYN?,
                                 s.state.CONNECTED? && m.kind.FIN? && m.src == s.client;
            && t.me == s.me
            && t.state == (if opens then CONNECTED else if closes then CLOSEWAIT else s.state)
            && t.client == (if opens then m.src else s.client)
            && t.recvd == (if Takes(s, m) then s.recvd + m.data else s.recvd)
            && (opens ==> t.expected == m.seqNum)
            && (Takes(s, m) ==> t.expected == (s.expected + |m.data|) % WORD32)
            && (!opens && !Takes(s, m) ==> t.expected == s.expected)
  {
  }

  /** Only a closed socket may start to accept. */
  function StartAccept(s: Tcb): (Tcb, bool) {
    if s.state.CLOSED? then (s.(state := LISTENING), true) else (s, false)
  }

  /** An accept in any other state fails and changes nothing. */
  lemma StartAcceptMeans(s: Tcb)
    ensures var (t, ok) := StartAccept(s);
            && (ok <==> s.state == CLOSED)
            && (if ok then t.state == LISTENING && t.(state := CLOSED) == s else t == s)
  {
  }

  /** One look of a started accept: it polls on while listening, returns 1 when it finds a
      connection, and otherwise closes the socket and returns -1. */
  function AcceptLook(s: Tcb): (Tcb, Option<int>) {
    match s.state
    case LISTENING => (s, None)
    case CONNECTED => (s, Some(1))
    case CLOSED | CLOSEWAIT => (s.(state := CLOSED), Some(-1))
  }

  /** What a receive of some length finds. */
  datatype Received = TooLong | NotYet | Bytes(bytes: seq<Byte>)

  /** A request beyond the buffer's size fails, one beyond its contents keeps polling, any
      other takes the oldest bytes. */
  function Recv(s: Tcb, length: nat): (Tcb, Received) {
    if length > RECEIVE_BUF_SIZE then (s, TooLong)
    else if |s.recvd| < length then (s, NotYet)
    else (s.(recvd := s.recvd[length..]), Bytes(s.recvd[..length]))
  }

  /** A receive takes the oldest bytes and keeps the rest, in order. */
  lemma RecvSplits(s: Tcb, length: nat)
    ensures var (t, r) := Recv(s, length);
            && s.recvd == (if r.Bytes? then r.bytes else []) + t.recvd
            && (r.Bytes? <==> length <= RECEIVE_BUF_SIZE && length <= |s.recvd|)
            && (r.Bytes? ==> |r.bytes| == length)
            && (r.TooLong? <==> length > RECEIVE_BUF_SIZE)
            && t == s.(recvd := t.recvd)
  {
  }

  /** Nothing is ever stored that would fill the buffer, so a request for its whole size
      passes the length check and then polls for ever. */
  lemma WholeBufferIsNeverServed(s: Tcb, m: Segment)
    requires |s.recvd| < RECEIVE_BUF_SIZE
    ensures |Handle(s, m).0.recvd| < RECEIVE_BUF_SIZE
    ensures Recv(s, RECEIVE_BUF_SIZE) == (s, NotYet)
  {
  }

  // ---------------------------------------------------------------- the control block

  class ServerTcb {
    const me: Addr
    var state: State
    var client: Addr
    var expected: nat
    const buf: array<Byte>
    /** The receive pointer, as an offset from the buffer's base. */
    var recvBuf: nat
    var usedBufLen: nat

    ghost predicate Valid()
      reads this, buf
    {
      && buf.Length == RECEIVE_BUF_SIZE
      && recvBuf == usedBufLen < RECEIVE_BUF_SIZE
      && forall i :: usedBufLen <= i < RECEIVE_BUF_SIZE ==> buf[i] == 0
    }

    ghost function Value(): Tcb
      requires Valid()
      reads this, buf
    {
      Tcb(me, state, client, expected, buf[..usedBufLen])
    }

    constructor (me: Addr)
      ensures Valid() && fresh(buf)
      ensures Value() == Tcb(me, CLOSED, Addr(0, 0), 0, [])
    {
      this.me, state, client, expected := me, CLOSED, Addr(0, 0), 0;
      buf := new Byte[RECEIVE_BUF_SIZE](_ => 0);
      recvBuf, usedBufLen := 0, 0;
    }

    /** The first part of accepting; false means the call fails with -1. */
    method BeginAccept() returns (ok: bool)
      requires Valid()
      modifies this
      ensures Valid() && (Value(), ok) == StartAccept(old(Value()))
    {
      if state != CLOSED {
        return false;
      }
      state := LISTENING;
      return true;
    }

    /** One pass of the polling loop and, once it is over, what the call returns. */
    method LookAccept() returns (answer: Option<int>)
      requires Valid()
      modifies this
      ensures Valid() && (Value(), answer) == AcceptLook(old(Value()))
    {
      if state == LISTENING {
        return None;
      }
      if state == CONNECTED {
        return Some(1);
      }
      state := CLOSED;
      return Some(-1);
    }

    /** The branch for a DATA segment from the recorded client. */
    method StoreData(m: Segment)
      requires Valid()
      modifies this, buf
      ensures Valid() && Value() == Accept(old(Value()), m)
    {
      if m.seqNum == expected {
        if |m.data| + usedBufLen < RECEIVE_BUF_SIZE {
          forall i | 0 <= i < |m.data| {
            buf[recvBuf + i] := m.data[i];
          }
          recvBuf := recvBuf + |m.data|;
          usedBufLen := usedBufLen + |m.data|;
          expected := (expected + |m.data|) % WORD32;
          assert buf[..usedBufLen] == old(buf[..usedBufLen]) + m.data;
        }
      }
    }

    /** One pass of the segment handler's loop. */
    method HandleSegment(m: Segment) returns (reply: Option<Segment>)
      requires Valid()
      modifies this, buf
      ensures Valid()
      ensures (Value(), reply) == Handle(old(Value()), m)
    {
      reply := None;
      match state {
        case CLOSED =>
        case LISTENING =>
          if m.kind.SYN? {
            state, client, expected := CONNECTED, m.src, m.seqNum;
            reply := Some(Segment(me, client, SYNACK, 0, []));
          }
        case CONNECTED =>
          if m.kind.SYN? && m.src == client {
            reply := Some(Segment(me, client, SYNACK, 0, []));
          } else if m.kind.FIN? && m.src == client {
            state := CLOSEWAIT;
            reply := Some(Segment(me, client, FINACK, 0, []));
          } else if m.kind.DATA? && m.src == client {
            StoreData(m);
            reply := Some(Segment(me, client, DATAACK, expected, []));
          }
        case CLOSEWAIT =>
          if m.kind.FIN? && m.src == client {
            reply := Some(Segment(me, client, FINACK, 0, []));
          }
      }
    }

    /** One look at the receive buffer; the caller polls while the answer is NotYet. */
    method Receive(length: nat) returns (r: Received)
      requires Valid()
      modifies this, buf
      ensures Valid()
      ensures (Value(), r) == Recv(old(Value()), length)
    {
      if length > RECEIVE_BUF_SIZE {
        return TooLong;
      }
      if usedBufLen < length {
        return NotYet;
      }
      ghost var was := buf[..usedBufLen];
      recvBuf := recvBuf - usedBufLen;
      r := Bytes(buf[recvBuf..recvBuf + length]);
      assert r.bytes == was[..length];
      usedBufLen := usedBufLen - length;
      forall i | 0 <= i < usedBufLen {
        buf[recvBuf + i] := buf[recvBuf + length + i];
      }
      forall i | usedBufLen <= i < RECEIVE_BUF_SIZE {
        buf[recvBuf + i] := 0;
      }
      recvBuf := recvBuf + usedBufLen;
      DropIs(buf[..usedBufLen], was, length);
    }
  }
}
