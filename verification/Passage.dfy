/** A segment's way through the overlay by its packet's own header and the tables of the
    nodes it comes to, while those tables change: never handed up but at the node it was
    addressed to, and handed up there as it was sent. */
module Passage {
  import opened Basics
  import opened Topology
  import opened Segment
  import opened RoutingNet
  import opened RoutingTheorems
  import opened Router
  import opened SegmentImage
  import opened Link
  import opened Layout
  import opened Transit
  import DvTable
  import Framing

  /** The packet, where it is, and how many hops it has made. */
  datatype Parcel = Parcel(net: Net, at: nat, pkt: seq<Byte>, hops: nat)

  function DestOf(pkt: seq<Byte>, big: bool): nat
    requires |pkt| == PKT_SIZE
  {
    Value(pkt[PKT_DEST_AT..PKT_DEST_AT + ID_SIZE], big)
  }

  function KindOfPacket(pkt: seq<Byte>, big: bool): nat
    requires |pkt| == PKT_SIZE
  {
    Value(pkt[PKT_TYPE_AT..PKT_TYPE_AT + 2], big)
  }

  ghost predicate Named(c: Costs, ids: seq<nat>) {
    |ids| == |c| && DvTable.Distinct(ids) && forall i :: 0 <= i < |ids| ==> ids[i] < WORD32
  }

  /** What the node that has the packet does with it. */
  ghost function Decided(c: Costs, ids: seq<nat>, s: Parcel, big: bool): Action
    requires Named(c, ids) && Shape(c, s.net) && s.at < |c| && |s.pkt| == PKT_SIZE
  {
    assert NodeShape(c, s.at, s.net.nodes[s.at]);
    Routed(ids, s.at, s.net.nodes[s.at].next, DestOf(s.pkt, big))
  }

  /** A segment packet goes to the next hop, and gets there. */
  ghost predicate Carries(c: Costs, ids: seq<nat>, s: Parcel, t: Parcel, big: bool) {
    && Named(c, ids) && Shape(c, s.net) && s.at < |c| && t.at < |c| && |s.pkt| == PKT_SIZE
    && KindOfPacket(s.pkt, big) == SNP
    && Decided(c, ids, s, big) == ToNode(ids[t.at])
    && Hop(s.pkt, Int(ids[t.at], big)) == Some(t.pkt)
    && t == s.(at := t.at, pkt := t.pkt, hops := s.hops + 1)
  }

  ghost predicate RideStep(c: Costs, ids: seq<nat>, s: Parcel, t: Parcel, big: bool) {
    (Step(c, s.net, t.net) && t == s.(net := t.net)) || Carries(c, ids, s, t, big)
  }

  ghost predicate RideStepAt(c: Costs, ids: seq<nat>, r: seq<Parcel>, k: nat, big: bool)
    requires k + 1 < |r|
  {
    RideStep(c, ids, r[k], r[k + 1], big)
  }

  /** From node x with a packet built around arg, in any interleaving with route updates. */
  ghost predicate Ride(c: Costs, ids: seq<nat>, x: nat, d: nat, arg: seq<Byte>, r: seq<Parcel>, big: bool) {
    && Named(c, ids) && x < |c| && d < |c| && x != d
    && |arg| == ARG_SIZE && arg[..ID_SIZE] == Int(ids[d], big)
    && |r| > 0 && Inv(c, r[0].net) && r[0].net.nodes[x].dv[d] < INFINITE_COST
    && r[0] == Parcel(r[0].net, x, Encapsulate(Int(ids[x], big), arg, big), 0)
    && forall k :: 0 <= k < |r| - 1 ==> RideStepAt(c, ids, r, k, big)
  }

  /** With the packet as it was built, the header's destination decides as the tables say. */
  lemma HeaderDecides(c: Costs, ids: seq<nat>, s: Parcel, src: seq<Byte>, arg: seq<Byte>, d: nat, big: bool)
    requires Named(c, ids) && Shape(c, s.net) && s.at < |c| && d < |c| && |src| == ID_SIZE
    requires |arg| == ARG_SIZE && arg[..ID_SIZE] == Int(ids[d], big) && s.pkt == Encapsulate(src, arg, big)
    ensures KindOfPacket(s.pkt, big) == SNP && DestOf(s.pkt, big) == ids[d]
    ensures var next := s.net.nodes[s.at].next;
            && (forall e :: e in next ==> next[e] < |c|)
            && Decided(c, ids, s, big) == if s.at == d then ToTransport
                                          else if d in next then ToNode(ids[next[d]]) else ToNode(-1)
  {
    PacketCarries(src, arg, big);
    assert NodeShape(c, s.at, s.net.nodes[s.at]);
    RoutedIs(ids, s.at, s.net.nodes[s.at].next, d);
  }

  /** The same moment of a journey: the net, the place and the hops agree. */
  predicate Alongside(s: Parcel, w: World) {
    s.net == w.net && s.at == w.at && s.hops == w.hops
  }

  lemma StepIsWorldStep(c: Costs, ids: seq<nat>, s: Parcel, t: Parcel, src: seq<Byte>, arg: seq<Byte>, d: nat,
                        w: World, big: bool)
    returns (v: World)
    requires Named(c, ids) && RideStep(c, ids, s, t, big) && Shape(c, s.net) && s.at < |c| && d < |c|
    requires |src| == ID_SIZE && |arg| == ARG_SIZE && arg[..ID_SIZE] == Int(ids[d], big)
    requires s.pkt == Encapsulate(src, arg, big) && Alongside(s, w)
    ensures WorldStep(c, d, w, v) && Alongside(t, v) && t.pkt == s.pkt
  {
    if Step(c, s.net, t.net) && t == s.(net := t.net) {
      return w.(net := t.net);
    }
    HeaderDecides(c, ids, s, src, arg, d, big);
    HopIsWhole(s.pkt, Int(ids[t.at], big));
    var next := s.net.nodes[s.at].next[d];
    assert ids[next] == ids[t.at] && next == t.at;
    return World(s.net, t.at, w.spent + Topology.Link(c, s.at, t.at), w.hops + 1);
  }

  /** The packet is never altered, and its ride is a journey of the routing theorems. */
  lemma {:induction false} RideIsJourney(c: Costs, ids: seq<nat>, x: nat, d: nat, arg: seq<Byte>, r: seq<Parcel>,
                                         k: nat, big: bool)
    returns (w: seq<World>)
    requires Ride(c, ids, x, d, arg, r, big) && k < |r|
    ensures Journey(c, d, w) && |w| == k + 1 && w[0].net == r[0].net && w[0].at == x && Alongside(r[k], w[k])
    ensures r[k].pkt == r[0].pkt
  {
    if k == 0 {
      return [World(r[0].net, x, 0, 0)];
    }
    var u := RideIsJourney(c, ids, x, d, arg, r, k - 1, big);
    PacketMeetsItsBudget(c, d, u, k - 1);
    assert RideStepAt(c, ids, r, k - 1, big);
    var v := StepIsWorldStep(c, ids, r[k - 1], r[k], Int(ids[x], big), arg, d, u[k - 1], big);
    JourneyOneMore(c, d, u, v);
    return u + [v];
  }

  lemma JourneyOneMore(c: Costs, d: nat, u: seq<World>, v: World)
    requires Journey(c, d, u) && WorldStep(c, d, u[|u| - 1], v)
    ensures Journey(c, d, u + [v])
  {
    var w := u + [v];
    forall i | 0 <= i < |w| - 1 ensures WorldStepAt(c, d, w, i) {
      assert i < |u| - 1 ==> WorldStepAt(c, d, u, i);
    }
  }

  /** At every moment of every ride the packet is what it was; it is handed up exactly at
      the node it was addressed to; elsewhere it is sent to a neighbour strictly nearer to
      that node; and after as many hops as its injection distance it is there. */
  lemma PacketReachesItsAddress(c: Costs, ids: seq<nat>, x: nat, d: nat, arg: seq<Byte>, r: seq<Parcel>, k: nat,
                                big: bool)
    requires Ride(c, ids, x, d, arg, r, big) && k < |r|
    ensures Inv(c, r[k].net) && r[k].at < |c|
    ensures r[k].pkt == r[0].pkt && Decapsulate(r[k].pkt) == Int(ids[x], big) + arg[ID_SIZE..]
    ensures Decided(c, ids, r[k], big) == ToTransport <==> r[k].at == d
    ensures r[k].at != d ==>
              exists n: nat :: Decided(c, ids, r[k], big) == NextIs(ids, n) && NearerBy(c, r[k].net, r[k].at, n, d)
    ensures r[k].hops >= r[0].net.nodes[x].dv[d] ==> r[k].at == d
  {
    var w := RideIsJourney(c, ids, x, d, arg, r, k, big);
    PacketMeetsItsBudget(c, d, w, k);
    PacketCarries(Int(ids[x], big), arg, big);
    HeaderDecides(c, ids, r[k], Int(ids[x], big), arg, d, big);
    if r[k].at != d {
      NextHopFalls(c, r[k].net, r[k].at, d);
      var n := r[k].net.nodes[r[k].at].next[d];
      assert Decided(c, ids, r[k], big) == NextIs(ids, n) && NearerBy(c, r[k].net, r[k].at, n, d);
    }
    if r[k].hops >= r[0].net.nodes[x].dv[d] {
      PacketArrives(c, d, w, k);
    }
  }

  function NextIs(ids: seq<nat>, n: nat): Action {
    if n < |ids| then ToNode(ids[n]) else ToNode(-1)
  }

  /** n is a neighbour of at, and nearer to d by at least the link between them. */
  ghost predicate NearerBy(c: Costs, net: Net, at: nat, n: nat, d: nat)
    requires Shape(c, net) && at < |c| && d < |c|
  {
    Nbr(c, at, n) && net.nodes[n].dv[d] + c[at][n] <= net.nodes[at].dv[d]
  }

  // ---------------------------------------------------------------- getting there

  /** The packet is whole in every frame, whichever node is the next hop. */
  ghost predicate ClearEverywhere(ids: seq<nat>, pkt: seq<Byte>, big: bool) {
    Whole(pkt) && forall i :: 0 <= i < |ids| ==> ids[i] < WORD32 && Whole(Int(ids[i], big) + pkt)
  }

  lemma RideOneMore(c: Costs, ids: seq<nat>, x: nat, d: nat, arg: seq<Byte>, r: seq<Parcel>, t: Parcel, big: bool)
    requires Ride(c, ids, x, d, arg, r, big) && RideStep(c, ids, r[|r| - 1], t, big)
    ensures Ride(c, ids, x, d, arg, r + [t], big)
  {
    var more := r + [t];
    forall i | 0 <= i < |more| - 1 ensures RideStepAt(c, ids, more, i, big) {
      assert i < |r| - 1 ==> RideStepAt(c, ids, r, i, big);
    }
  }

  /** How far a parcel's node is from d. */
  ghost function StillToGo(c: Costs, d: nat, s: Parcel): nat {
    if Shape(c, s.net) && s.at < |c| && d < |c| then s.net.nodes[s.at].dv[d] else 0
  }

  lemma CanBeCarried(c: Costs, ids: seq<nat>, s: Parcel, src: seq<Byte>, arg: seq<Byte>, d: nat, big: bool)
    returns (t: Parcel)
    requires Named(c, ids) && Inv(c, s.net) && s.at < |c| && d < |c| && s.at != d && d in s.net.nodes[s.at].next
    requires |src| == ID_SIZE && |arg| == ARG_SIZE && arg[..ID_SIZE] == Int(ids[d], big)
    requires s.pkt == Encapsulate(src, arg, big) && ClearEverywhere(ids, s.pkt, big)
    ensures Carries(c, ids, s, t, big) && StillToGo(c, d, t) < StillToGo(c, d, s)
  {
    HeaderDecides(c, ids, s, src, arg, d, big);
    NextHopFalls(c, s.net, s.at, d);
    var n := s.net.nodes[s.at].next[d];
    HopIsWhole(s.pkt, Int(ids[n], big));
    t := Parcel(s.net, n, s.pkt, s.hops + 1);
  }

  /** Short of its destination, a packet that is whole in every frame can be carried on. */
  lemma RideGoesOn(c: Costs, ids: seq<nat>, x: nat, d: nat, arg: seq<Byte>, r: seq<Parcel>, big: bool)
    returns (t: Parcel)
    requires Ride(c, ids, x, d, arg, r, big) && r[|r| - 1].at != d && ClearEverywhere(ids, r[0].pkt, big)
    ensures Ride(c, ids, x, d, arg, r + [t], big)
    ensures StillToGo(c, d, t) < StillToGo(c, d, r[|r| - 1])
  {
    var k := |r| - 1;
    var w := RideIsJourney(c, ids, x, d, arg, r, k, big);
    PacketMeetsItsBudget(c, d, w, k);
    t := CanBeCarried(c, ids, r[k], Int(ids[x], big), arg, d, big);
    RideOneMore(c, ids, x, d, arg, r, t, big);
  }

  /** From every moment of every ride some continuation brings such a packet to the node
      it was addressed to. */
  lemma {:induction false} CanArrive(c: Costs, ids: seq<nat>, x: nat, d: nat, arg: seq<Byte>, r: seq<Parcel>, big: bool)
    returns (more: seq<Parcel>)
    requires Ride(c, ids, x, d, arg, r, big) && ClearEverywhere(ids, r[0].pkt, big)
    ensures Ride(c, ids, x, d, arg, more, big) && r <= more && more[|more| - 1].at == d
    decreases StillToGo(c, d, r[|r| - 1])
  {
    if r[|r| - 1].at == d {
      return r;
    }
    var t := RideGoesOn(c, ids, x, d, arg, r, big);
    more := CanArrive(c, ids, x, d, arg, r + [t], big);
    assert r <= r + [t] <= more;
  }

  // ---------------------------------------------------------------- end to end

  /** The payload that a transport process sends for a segment, and the one that the network
      process at the other end makes of it. */
  function Outgoing(m: Segment, big: bool): (arg: seq<Byte>)
    requires Fits(m) && m.dst.node < WORD32
    ensures |arg| == ARG_SIZE && arg[..ID_SIZE] == Int(m.dst.node, big)
  {
    Payload(Arg(Int(m.dst.node, big), Laid(m, big)), big)
  }

  function Incoming(m: Segment, big: bool): (arg: seq<Byte>)
    requires Fits(m) && m.src.node < WORD32
    ensures |arg| == ARG_SIZE
  {
    Payload(Arg(Int(m.src.node, big), Laid(m, big)), big)
  }

  /** What the receiving transport process at some node makes of a payload that its network
      process sends it, whatever its buffer held before. */
  function Received(payload: seq<Byte>, mem: seq<Byte>, fate: Fate, to: nat, big: bool): Option<Segment>
    requires |mem| == ARG_SIZE + 2
  {
    var out := Framing.Feed(Framing.IDLE, Framing.Frame(payload)).1;
    if |out| != 1 || |out[0]| > |mem| then None else
    match Taken(Read(Memory(mem, out)), fate, big)
    case None => None
    case Some(got) => Some(Parsed(got.seg, Value(got.node, big), to, big))
  }

  /** From a segment's fields at one end to its fields at the other: after as many hops as
      the distance at which it was sent, it is at the node it was addressed to, is handed up
      there, and is read as what was sent, or as DATA hit in its type; only the loss
      simulator or an error that the check finds stops it. */
  lemma SegmentIsDelivered(c: Costs, ids: seq<nat>, x: nat, d: nat, m: Segment, r: seq<Parcel>, k: nat,
                           mem: seq<Byte>, fate: Fate, big: bool)
    requires Fits(m) && Possible(m, fate) && |mem| == ARG_SIZE + 2
    requires Named(c, ids) && x < |c| && d < |c| && m.src.node == ids[x] && m.dst.node == ids[d]
    requires Ride(c, ids, x, d, Outgoing(m, big), r, big) && k < |r| && Whole(Incoming(m, big))
    requires r[k].hops >= r[0].net.nodes[x].dv[d]
    ensures r[k].at == d && Shape(c, r[k].net) && |r[k].pkt| == PKT_SIZE
    ensures Decided(c, ids, r[k], big) == ToTransport
    ensures var got := Received(Decapsulate(r[k].pkt), mem, fate, ids[d], big);
            && (fate.Intact? ==> got == Some(m)) && (fate.Lost? ==> got == None)
            && (fate.BitError? && got.Some? ==>
                  m.kind.DATA? && MayHit(got.value.kind) && got.value == m.(kind := got.value.kind))
  {
    PacketReachesItsAddress(c, ids, x, d, Outgoing(m, big), r, k, big);
    var src, sent := Int(m.src.node, big), Stamped(Laid(m, big), big);
    assert Outgoing(m, big)[ID_SIZE..] == sent && Decapsulate(r[k].pkt) == src + sent;
    ReceivedIs(m, mem, fate, big);
  }

  lemma ReceivedIs(m: Segment, mem: seq<Byte>, fate: Fate, big: bool)
    requires Fits(m) && Possible(m, fate) && |mem| == ARG_SIZE + 2 && m.src.node < WORD32
    requires Whole(Incoming(m, big))
    ensures var got := Received(Incoming(m, big), mem, fate, m.dst.node, big);
            && (fate.Intact? ==> got == Some(m)) && (fate.Lost? ==> got == None)
            && (fate.BitError? && got.Some? ==>
                  m.kind.DATA? && MayHit(got.value.kind) && got.value == m.(kind := got.value.kind))
  {
    var src, sent := Int(m.src.node, big), Stamped(Laid(m, big), big);
    ImageIsRead(mem, src, sent, Framing.Feed(Framing.IDLE, Framing.Frame(src + sent)).1);
    TakenIsVerdict(Arg(src, Laid(m, big)), fate, big);
    ParsedIsSentOrHit(m, src, fate, big);
  }
}
