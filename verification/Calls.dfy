/** The client's calls as the caller sees them are runs of the connection's events, which
    are one critical section each. */
module Calls {
  import opened Basics
  import opened Segment
  import opened SendBuffer
  import opened Stream
  import opened Session
  import Client

  /** The sending thread queues what is left to queue. */
  ghost function QueueRest(s: Session): (t: Session)
    requires s.cl.state.CONNECTED? && |Bytes(s.queued)| + |Flatten(s.todo)| < WORD32
    ensures t.cl == s.cl.(buf := AppendAll(s.cl.buf, s.todo)) && t.todo == []
    ensures t.net == s.net && t.sv == s.sv && t.sends == s.sends && t.delivered == s.delivered && Leads(s, t)
    decreases |s.todo|
  {
    if s.todo == [] then
      LeadsSelf(s);
      s
    else
    BytesAppend(s.queued, Frag(s.cl.buf.nextSeq, s.todo[0]));
    var u := AfterQueue(s);
    var t := QueueRest(u);
    LeadsByEvent(s, QueueNext);
    LeadsOn(s, u, t);
    t
  }

  lemma FragmentsAreNoLonger(data: seq<Byte>)
    ensures |Flatten(Fragments(data))| <= |data|
  {
    FragmentsMean(data);
  }

  /** A whole call of srt_client_send, undisturbed: one Send, a QueueNext for each fragment
      and a SendWindow reach the buffer and send the segments that ClientTcb.Send promises. */
  lemma SendIsEvents(s: Session, data: seq<Byte>) returns (t: Session)
    requires s.cl.state.CONNECTED? && s.todo == [] && s.cl.buf.unsent <= |s.cl.buf.live| && data != []
    requires |Bytes(s.queued)| + |data| < WORD32
    ensures var b := AppendAll(s.cl.buf, Fragments(data));
            && b.unsent <= |b.live|
            && t.cl == s.cl.(buf := SendMax(b).0) && t.todo == [] && t.sends == s.sends + [data]
            && t.net == s.net + SetOf(Client.ToSegments(s.cl, SendMax(b).1)) && t.sv == s.sv
    ensures Leads(s, t)
  {
    var cut := Apply(s, Send(data));
    FragmentsAreNoLonger(data);
    SendMeans(s.cl.buf, data);
    var u := QueueRest(cut);
    t := Apply(u, SendWindow);
    assert Client.ToSegments(u.cl, SendMax(u.cl.buf).1) == Client.ToSegments(s.cl, SendMax(u.cl.buf).1);
    LeadsByEvent(s, Send(data));
    LeadsOn(s, cut, u);
    LeadsByEvent(u, SendWindow);
    LeadsOn(s, u, t);
  }

  /** The handler's whole answer to an acknowledgement: the freeing, then a SendWindow when
      something is unsent, reach what ClientTcb.HandleSegment promises. */
  lemma AckIsEvents(s: Session, m: Segment) returns (t: Session)
    requires Enabled(s, ToClient(m)) && Client.IsAck(s.cl, m)
    ensures t.cl == Client.Handle(s.cl, m).0 && t.net == s.net + SetOf(Client.Handle(s.cl, m).1)
    ensures Leads(s, t)
  {
    var u := Apply(s, ToClient(m));
    assert u.cl == Client.Take(s.cl, m);
    LeadsByEvent(s, ToClient(m));
    t := u;
    if u.cl.buf.unsent < |u.cl.buf.live| {
      t := Apply(u, SendWindow);
      LeadsByEvent(u, SendWindow);
      LeadsOn(s, u, t);
    } else {
      assert SetOf([]) == {};
    }
  }
}
