/** Many clients, at distinct addresses, against one accept of one server, over a network
    that loses, duplicates, reorders and hits the type of DATA. Clients may connect
    elsewhere, give up, try again, send and disconnect as they like. */
module Handshake {
  import opened Basics
  import opened Segment
  import Client
  import Server
  import SendBuffer

  /** isn and syns are history: the sequence number of the SYN that was accepted, and the
      SYNs that clients have sent. */
  datatype World = World(sv: Server.Tcb, clients: map<Addr, Client.Tcb>, net: set<Segment>, accepted: bool,
                         isn: nat, syns: set<Segment>)

  datatype Event =
    | Connect(a: Addr, svr: Addr) | ResendSyn(a: Addr) | GiveUp(a: Addr)
    | UseBuffer(a: Addr, buf: SendBuffer.Buf) | SendData(a: Addr, seqNum: nat, data: seq<Byte>)
    | Disconnect(a: Addr) | ResendFin(a: Addr) | ToClient(a: Addr, m: Segment)
    | Listen | AcceptLook | ToServer(m: Segment) | CloseWaitEnds
    | Stranger(m: Segment) | TypeHit(m: Segment, kind: Kind)

  predicate Joined(w: World) {
    w.accepted && !w.sv.state.LISTENING?
  }

  ghost predicate Enabled(w: World, e: Event) {
    match e
    case Connect(a, svr) => a in w.clients && w.clients[a].state.CLOSED?
    case ResendSyn(a) => a in w.clients && w.clients[a].state.SYNSENT?
    case GiveUp(a) => a in w.clients && (w.clients[a].state.SYNSENT? || w.clients[a].state.FINWAIT?)
    case UseBuffer(a, buf) => a in w.clients && w.clients[a].state.CONNECTED?
    case SendData(a, seqNum, data) => a in w.clients && w.clients[a].state.CONNECTED?
    case Disconnect(a) => a in w.clients && w.clients[a].state.CONNECTED?
    case ResendFin(a) => a in w.clients && w.clients[a].state.FINWAIT?
    case ToClient(a, m) => a in w.clients && m in w.net && m.dst == a && !m.kind.DATAACK?
    case Listen => w.sv.state.CLOSED? && !w.accepted
    case ToServer(m) => m in w.net && m.dst == w.sv.me
    case AcceptLook => w.accepted
    case CloseWaitEnds => w.sv.state.CLOSEWAIT?
    case Stranger(m) => m.src !in w.clients && m.src != w.sv.me
    case TypeHit(m, kind) => m in w.net && m.kind.DATA? && MayHit(kind)
  }

  function With(w: World, a: Addr, c: Client.Tcb): World {
    w.(clients := w.clients[a := c])
  }

  function Sending(w: World, m: Segment): World {
    w.(net := w.net + {m})
  }

  function SendingSyn(w: World, m: Segment): World {
    w.(net := w.net + {m}, syns := w.syns + {m})
  }

  /** An acknowledgement only works on the send buffer, so it is covered by UseBuffer. */
  ghost function Apply(w: World, e: Event): World
    requires Enabled(w, e)
  {
    match e
    case Connect(a, svr) =>
      var (c, syn) := Client.Connect(w.clients[a], svr);
      SendingSyn(With(w, a, c), syn.value)
    case ResendSyn(a) => SendingSyn(w, Client.Syn(w.clients[a]))
    case GiveUp(a) => With(w, a, w.clients[a].(state := Client.CLOSED))
    case UseBuffer(a, buf) => With(w, a, w.clients[a].(buf := buf))
    case SendData(a, seqNum, data) =>
      Sending(w, Client.ToSegment(w.clients[a], SendBuffer.Frag(seqNum, data)))
    case Disconnect(a) =>
      var (c, fin) := Client.Disconnect(w.clients[a]);
      Sending(With(w, a, c), fin.value)
    case ResendFin(a) => Sending(w, Client.Fin(w.clients[a]))
    case ToClient(a, m) => With(w, a, Client.Take(w.clients[a], m))
    case Listen => w.(sv := Server.StartAccept(w.sv).0, accepted := true)
    case ToServer(m) =>
      var (t, reply) := Server.Handle(w.sv, m);
      var u := w.(sv := t, isn := if w.sv.state.LISTENING? then t.expected else w.isn);
      if reply.Some? then Sending(u, reply.value) else u
    case AcceptLook => w.(sv := Server.AcceptLook(w.sv).0)
    case CloseWaitEnds => w.(sv := w.sv.(state := Server.CLOSED))
    case Stranger(m) => Sending(w, m)
    case TypeHit(m, kind) => Sending(w, m.(kind := kind))
  }

  ghost predicate Start(w: World) {
    && w.sv.state.CLOSED? && !w.accepted && w.net == {} && w.syns == {} && w.sv.me !in w.clients
    && forall a :: a in w.clients ==> w.clients[a] == Client.Fresh(a)
  }

  ghost predicate StepAt(run: seq<World>, k: nat)
    requires k + 1 < |run|
  {
    exists e :: Enabled(run[k], e) && run[k + 1] == Apply(run[k], e)
  }

  ghost predicate Run(run: seq<World>) {
    |run| > 0 && Start(run[0]) && forall k :: 0 <= k < |run| - 1 ==> StepAt(run, k)
  }

  // ---------------------------------------------------------------- the invariant

  /** A client that got through to this server. */
  predicate Through(w: World, a: Addr) {
    && a in w.clients && w.clients[a].svr == w.sv.me
    && (w.clients[a].state.CONNECTED? || w.clients[a].state.FINWAIT?)
  }

  /** The recorded client, if it is one of ours, really sent the SYN that was accepted. */
  ghost predicate SynSent(w: World) {
    w.sv.client in w.clients ==> exists m :: m in w.syns && AcceptedSyn(w, m)
  }

  predicate AcceptedSyn(w: World, m: Segment) {
    m.kind.SYN? && m.src == w.sv.client && m.dst == w.sv.me && m.seqNum == w.isn
  }

  /** Before some SYN is accepted no client has sent this server DATA, so every SYN that
      reaches it from a client is one that the client sent. */
  ghost predicate InFlight(w: World, m: Segment) {
    && (m.src in w.clients && m.dst == w.sv.me && !Joined(w) ==> !m.kind.DATA? && (m.kind.SYN? ==> m in w.syns))
    && (m.src == w.sv.me ==>
          && Joined(w) && m.dst == w.sv.client && !m.kind.DATA?
          && (m.kind.FINACK? ==> !w.sv.state.CONNECTED?))
  }

  ghost predicate Inv(w: World) {
    && w.sv.me !in w.clients
    && (!w.accepted ==> w.sv.state.CLOSED?)
    && (forall a :: a in w.clients ==> w.clients[a].me == a)
    && (forall a :: Through(w, a) ==> Joined(w) && w.sv.client == a)
    && (forall m :: m in w.net ==> InFlight(w, m))
    && (Joined(w) ==> SynSent(w))
  }

  lemma SynSentLater(w: World, t: World)
    requires Joined(w) && SynSent(w) && t.sv.client == w.sv.client && t.sv.me == w.sv.me && t.isn == w.isn
    requires w.syns <= t.syns && t.clients.Keys == w.clients.Keys
    ensures SynSent(t)
  {
    if w.sv.client in w.clients {
      var syn :| syn in w.syns && AcceptedSyn(w, syn);
      assert syn in t.syns && AcceptedSyn(t, syn);
    }
  }

  /** Sending keeps the invariant unless it is the server that sends. */
  lemma SendingKeeps(w: World, m: Segment)
    requires Inv(w) && m.src != w.sv.me && InFlight(w, m)
    ensures Inv(Sending(w, m))
  {
    forall a | Through(Sending(w, m), a) ensures Joined(w) && w.sv.client == a {
      assert Through(w, a);
    }
    if Joined(w) {
      SynSentLater(w, Sending(w, m));
    }
  }

  lemma SynKeeps(w: World, m: Segment)
    requires Inv(w) && m.src != w.sv.me && m.kind.SYN?
    ensures Inv(SendingSyn(w, m))
  {
    var t := SendingSyn(w, m);
    forall a | Through(t, a) ensures Joined(w) && w.sv.client == a {
      assert Through(w, a);
    }
    forall n | n in t.net ensures InFlight(t, n) {
      assert n in w.net ==> InFlight(w, n);
    }
    if Joined(w) {
      SynSentLater(w, t);
    }
  }

  /** So does a client's change that does not newly get it through. */
  lemma WithKeeps(w: World, a: Addr, c: Client.Tcb)
    requires Inv(w) && a in w.clients && c.me == a
    requires Through(With(w, a, c), a) ==> Joined(w) && w.sv.client == a
    ensures Inv(With(w, a, c))
  {
    var t := With(w, a, c);
    forall b | Through(t, b) ensures Joined(t) && t.sv.client == b {
      assert b != a ==> Through(w, b);
    }
    forall n | n in t.net ensures InFlight(t, n) {
      assert InFlight(w, n);
    }
    if Joined(w) {
      SynSentLater(w, t);
    }
  }

  lemma ClientEventKeeps(w: World, e: Event)
    requires Inv(w) && Enabled(w, e) && !e.Listen? && !e.AcceptLook? && !e.ToServer? && !e.CloseWaitEnds?
    ensures Inv(Apply(w, e))
  {
    match e
    case Connect(a, svr) =>
      var (c, syn) := Client.Connect(w.clients[a], svr);
      WithKeeps(w, a, c);
      SynKeeps(With(w, a, c), syn.value);
    case ResendSyn(a) => SynKeeps(w, Client.Syn(w.clients[a]));
    case GiveUp(a) => WithKeeps(w, a, w.clients[a].(state := Client.CLOSED));
    case UseBuffer(a, buf) =>
      assert w.clients[a].svr == w.sv.me ==> Through(w, a);
      WithKeeps(w, a, w.clients[a].(buf := buf));
    case SendData(a, seqNum, data) =>
      assert w.clients[a].svr == w.sv.me ==> Through(w, a);
      SendingKeeps(w, Client.ToSegment(w.clients[a], SendBuffer.Frag(seqNum, data)));
    case Disconnect(a) =>
      assert w.clients[a].svr == w.sv.me ==> Through(w, a);
      var (c, fin) := Client.Disconnect(w.clients[a]);
      WithKeeps(w, a, c);
      SendingKeeps(With(w, a, c), fin.value);
    case ResendFin(a) => SendingKeeps(w, Client.Fin(w.clients[a]));
    case ToClient(a, m) =>
      assert InFlight(w, m);
      assert Through(w, a) ==> Joined(w) && w.sv.client == a;
      WithKeeps(w, a, Client.Take(w.clients[a], m));
    case Stranger(m) => SendingKeeps(w, m);
    case TypeHit(m, kind) =>
      assert InFlight(w, m);
      SendingKeeps(w, m.(kind := kind));
  }

  lemma ServerEventKeeps(w: World, e: Event)
    requires Inv(w) && Enabled(w, e) && (e.Listen? || e.AcceptLook? || e.CloseWaitEnds?)
    ensures Inv(Apply(w, e))
  {
    var t := Apply(w, e);
    forall a | Through(t, a) ensures Joined(t) && t.sv.client == a {
      assert Through(w, a);
    }
    forall n | n in t.net ensures InFlight(t, n) {
      assert InFlight(w, n);
    }
    if Joined(w) {
      SynSentLater(w, t);
    }
  }

  lemma ToServerKeeps(w: World, m: Segment)
    requires Inv(w) && Enabled(w, ToServer(m))
    ensures Inv(Apply(w, ToServer(m)))
  {
    var t := Apply(w, ToServer(m));
    assert InFlight(w, m);
    if Joined(w) {
      SynSentLater(w, t);
    } else if Joined(t) {
      assert AcceptedSyn(t, m);
    }
    forall n | n in t.net ensures InFlight(t, n) {
      assert n in w.net ==> InFlight(w, n);
    }
    forall a | Through(t, a) ensures Joined(t) && t.sv.client == a {
      assert Through(w, a);
    }
  }

  lemma StepKeeps(w: World, e: Event)
    requires Inv(w) && Enabled(w, e)
    ensures Inv(Apply(w, e))
  {
    match e
    case ToServer(m) => ToServerKeeps(w, m);
    case Listen | AcceptLook | CloseWaitEnds => ServerEventKeeps(w, e);
    case _ => ClientEventKeeps(w, e);
  }

  lemma {:induction false} RunKeeps(run: seq<World>, k: nat)
    requires Run(run) && k < |run|
    ensures Inv(run[k])
  {
    if k > 0 {
      RunKeeps(run, k - 1);
      assert StepAt(run, k - 1);
      var e :| Enabled(run[k - 1], e) && run[k] == Apply(run[k - 1], e);
      StepKeeps(run[k - 1], e);
    }
  }

  // ---------------------------------------------------------------- what it promises

  /** Once some SYN is accepted, the recorded client stays, and only accepting the data
      the server expects moves its expected number: repeated SYNs never rewind it. */
  lemma NothingRewinds(w: World, e: Event)
    requires Inv(w) && Enabled(w, e) && Joined(w)
    ensures var t := Apply(w, e);
            && Joined(t) && t.sv.client == w.sv.client && t.isn == w.isn
            && (t.sv.expected != w.sv.expected ==>
                  && e.ToServer? && e.m.kind.DATA? && e.m.src == w.sv.client && e.m.seqNum == w.sv.expected
                  && t.sv.expected == (w.sv.expected + |e.m.data|) % WORD32)
  {
  }

  /** Over any stretch of a run the recorded client and its first sequence number last. */
  lemma {:induction false} RecordedForGood(run: seq<World>, i: nat, j: nat)
    requires Run(run) && i <= j < |run| && Joined(run[i])
    ensures Joined(run[j]) && run[j].sv.client == run[i].sv.client && run[j].isn == run[i].isn
    decreases j - i
  {
    if i < j {
      RecordedForGood(run, i, j - 1);
      RunKeeps(run, j - 1);
      assert StepAt(run, j - 1);
      var e :| Enabled(run[j - 1], e) && run[j] == Apply(run[j - 1], e);
      NothingRewinds(run[j - 1], e);
    }
  }

  lemma RecordedIsThrough(run: seq<World>, k: nat, a: Addr)
    requires Run(run) && k < |run| && Through(run[k], a)
    ensures Joined(run[k]) && run[k].sv.client == a
    ensures exists m :: m in run[k].syns && m.kind.SYN? && m.src == a && m.dst == run[k].sv.me && m.seqNum == run[k].isn
  {
    RunKeeps(run, k);
    var m :| m in run[k].syns && AcceptedSyn(run[k], m);
  }

  /** Over a whole run at most one client ever gets through, at whatever moments; the
      server recorded it, with the sequence number of a SYN that it sent. */
  lemma OneClientGetsThrough(run: seq<World>, i: nat, j: nat, a: Addr, b: Addr)
    requires Run(run) && i < |run| && j < |run| && Through(run[i], a) && Through(run[j], b)
    ensures a == b && run[i].sv.client == run[j].sv.client == a && run[i].isn == run[j].isn
    ensures exists m :: m in run[i].syns && m.kind.SYN? && m.src == a && m.dst == run[i].sv.me && m.seqNum == run[i].isn
  {
    RecordedIsThrough(run, i, a);
    RecordedIsThrough(run, j, b);
    if i <= j {
      RecordedForGood(run, i, j);
    } else {
      RecordedForGood(run, j, i);
    }
  }

  /** A disconnect that succeeds leaves a server that has left its connected state. */
  lemma DisconnectAgrees(run: seq<World>, k: nat, a: Addr, m: Segment)
    requires Run(run) && k < |run| && Through(run[k], a) && run[k].clients[a].state.FINWAIT?
    requires Enabled(run[k], ToClient(a, m)) && Apply(run[k], ToClient(a, m)).clients[a].state.CLOSED?
    ensures run[k].sv.state.CLOSEWAIT? || run[k].sv.state.CLOSED?
  {
    RunKeeps(run, k);
  }
}
