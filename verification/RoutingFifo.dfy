/** Distance-vector routing over reliable first-in-first-out links, with every vector built
    and sent in one step. Steps are as small as in the lossy system: the daemon may announce
    and neighbours may act between any two relaxations. Each is one lossy step. */
module RoutingFifo {
  import opened Topology
  import opened DistanceVector
  import opened RoutingNet
  import opened RoutingUpdate

  /** log[s] is everything s has broadcast; pos[x][s] is how much of it x has taken, so
      log[s][pos[x][s]..] is in flight from s to x. */
  datatype Fifo = Fifo(nodes: seq<Node>, work: seq<Work>, log: seq<seq<seq<nat>>>, pos: seq<seq<nat>>)

  /** x takes the oldest update in flight from s; x relaxes its next destination; the
      daemon of x broadcasts the vector it finds. */
  datatype Action = Hear(x: nat, s: nat) | Next(x: nat) | Announce(x: nat)

  function Start(c: Costs): Fifo {
    Fifo(Init(c).nodes, Init(c).work, seq(|c|, _ => []), seq(|c|, _ => seq(|c|, _ => 0)))
  }

  ghost predicate FShape(c: Costs, f: Fifo) {
    && Valid(c) && |f.nodes| == |c| && |f.work| == |c| && |f.log| == |c| && |f.pos| == |c|
    && (forall x :: 0 <= x < |c| ==> NodeShape(c, x, f.nodes[x]))
    && (forall x :: 0 <= x < |c| ==> WorkShape(c, x, f.work[x]))
    && (forall s, k :: 0 <= s < |c| && 0 <= k < |f.log[s]| ==> |f.log[s][k]| == |c|)
    && (forall x :: 0 <= x < |c| ==> |f.pos[x]| == |c|)
    && (forall x, s :: 0 <= x < |c| && 0 <= s < |c| ==> f.pos[x][s] <= |f.log[s]|)
  }

  ghost predicate May(c: Costs, f: Fifo, e: Action)
    requires FShape(c, f)
  {
    e.x < |c| &&
    match e
    case Hear(x, s) => f.work[x].Idle? && Nbr(c, x, s) && f.pos[x][s] < |f.log[s]|
    case Next(x) => f.work[x].Relaxing?
    case Announce(x) => true
  }

  ghost function Do(c: Costs, f: Fifo, e: Action): Fifo
    requires FShape(c, f) && May(c, f, e)
  {
    assert NodeShape(c, e.x, f.nodes[e.x]) && WorkShape(c, e.x, f.work[e.x]);
    match e
    case Hear(x, s) =>
      var vec := f.log[s][f.pos[x][s]];
      var g := f.(pos := f.pos[x := f.pos[x][s := f.pos[x][s] + 1]]);
      if f.nodes[x].copies[s] == vec then g else
      g.(nodes := f.nodes[x := Overwrite(f.nodes[x], s, vec)], work := f.work[x := Relaxing(s, 0)])
    case Next(x) =>
      var Relaxing(s, i) := f.work[x];
      var node := RelaxEntry(f.nodes[x], c[x][s], s, i);
      var out := if node.dv == f.nodes[x].dv then [] else [node.dv];
      f.(nodes := f.nodes[x := node],
         work := f.work[x := if i + 1 < |c| then Relaxing(s, i + 1) else Idle],
         log := f.log[x := f.log[x] + out])
    case Announce(x) =>
      f.(log := f.log[x := f.log[x] + [f.nodes[x].dv]])
  }

  /** A step that an update causes: hearing it, or relaxing after it. */
  ghost predicate UpdateStep(c: Costs, f: Fifo, g: Fifo) {
    FShape(c, f) && exists e :: May(c, f, e) && !e.Announce? && g == Do(c, f, e)
  }

  ghost predicate FifoStep(c: Costs, f: Fifo, g: Fifo) {
    FShape(c, f) && exists e :: May(c, f, e) && g == Do(c, f, e)
  }

  ghost predicate FifoStepAt(c: Costs, run: seq<Fifo>, k: nat)
    requires k + 1 < |run|
  {
    FifoStep(c, run[k], run[k + 1])
  }

  ghost predicate FifoRun(c: Costs, run: seq<Fifo>) {
    && Valid(c) && |run| > 0 && run[0] == Start(c)
    && forall k :: 0 <= k < |run| - 1 ==> FifoStepAt(c, run, k)
  }

  // ---------------------------------------------------------------- refinement

  ghost function Sent(f: Fifo): set<Update> {
    set s, k | 0 <= s < |f.log| && 0 <= k < |f.log[s]| :: Update(s, f.log[s][k])
  }

  /** The same state seen by the lossy system: what was ever broadcast may yet arrive. */
  ghost function Abs(f: Fifo): Net {
    Net(f.nodes, f.work, Sent(f))
  }

  lemma SentAfter(f: Fifo, x: nat, outs: seq<seq<nat>>)
    requires x < |f.log|
    ensures Sent(f.(log := f.log[x := f.log[x] + outs])) == Sent(f) + FromMe(x, outs)
  {
    var g := f.(log := f.log[x := f.log[x] + outs]);
    forall u | u in Sent(f) + FromMe(x, outs) ensures u in Sent(g) {
      if u in Sent(f) {
        var s, k :| 0 <= s < |f.log| && 0 <= k < |f.log[s]| && u == Update(s, f.log[s][k]);
        assert g.log[s][k] == f.log[s][k];
      } else {
        var k :| 0 <= k < |outs| && u == Update(x, outs[k]);
        assert g.log[x][|f.log[x]| + k] == outs[k];
      }
    }
    forall u | u in Sent(g) ensures u in Sent(f) + FromMe(x, outs) {
      var s, k :| 0 <= s < |g.log| && 0 <= k < |g.log[s]| && u == Update(s, g.log[s][k]);
      if s == x && k >= |f.log[x]| {
        assert u == Update(x, outs[k - |f.log[x]|]);
      } else {
        assert u == Update(s, f.log[s][k]);
      }
    }
  }

  /** The lossy system's event that an action is. */
  ghost function AsEvent(c: Costs, f: Fifo, e: Action): Event
    requires FShape(c, f) && May(c, f, e)
  {
    match e
    case Hear(x, s) => Deliver(x, Update(s, f.log[s][f.pos[x][s]]))
    case Next(x) => Event.Relax(x)
    case Announce(x) => Broadcast(x, f.nodes[x].dv)
  }

  lemma HearIsDeliver(c: Costs, f: Fifo, e: Action)
    requires FShape(c, f) && May(c, f, e) && e.Hear?
    ensures Shape(c, Abs(f)) && Enabled(c, Abs(f), AsEvent(c, f, e))
    ensures Abs(Do(c, f, e)) == Apply(c, Abs(f), AsEvent(c, f, e))
  {
    assert Update(e.s, f.log[e.s][f.pos[e.x][e.s]]) in Abs(f).sent;
    assert Sent(Do(c, f, e)) == Sent(f);
  }

  lemma NextIsRelax(c: Costs, f: Fifo, e: Action)
    requires FShape(c, f) && May(c, f, e) && e.Next?
    ensures Shape(c, Abs(f)) && Enabled(c, Abs(f), AsEvent(c, f, e))
    ensures Abs(Do(c, f, e)) == Apply(c, Abs(f), AsEvent(c, f, e))
  {
    var x, g := e.x, Do(c, f, e);
    assert NodeShape(c, x, f.nodes[x]) && WorkShape(c, x, f.work[x]);
    var out := if g.nodes[x].dv == f.nodes[x].dv then [] else [g.nodes[x].dv];
    SentAfter(f, x, out);
    FromMeSingle(x, g.nodes[x].dv);
    assert Sent(g) == Sent(f.(log := f.log[x := f.log[x] + out]));
  }

  lemma AnnounceIsBroadcast(c: Costs, f: Fifo, e: Action)
    requires FShape(c, f) && May(c, f, e) && e.Announce?
    ensures Shape(c, Abs(f)) && Enabled(c, Abs(f), AsEvent(c, f, e))
    ensures Abs(Do(c, f, e)) == Apply(c, Abs(f), AsEvent(c, f, e))
  {
    var x := e.x;
    assert NodeShape(c, x, f.nodes[x]);
    assert forall i :: 0 <= i < |c| ==> Said(Abs(f), x, i, f.nodes[x].dv[i]);
    SentAfter(f, x, [f.nodes[x].dv]);
    FromMeSingle(x, f.nodes[x].dv);
  }

  /** Every step over first-in-first-out links is exactly one step of the lossy system. */
  lemma DoRefines(c: Costs, f: Fifo, e: Action)
    requires FShape(c, f) && May(c, f, e)
    ensures Step(c, Abs(f), Abs(Do(c, f, e)))
  {
    match e
    case Hear(_, _) => HearIsDeliver(c, f, e);
    case Next(_) => NextIsRelax(c, f, e);
    case Announce(_) => AnnounceIsBroadcast(c, f, e);
  }

  lemma StartRefines(c: Costs)
    requires Valid(c)
    ensures Abs(Start(c)) == Init(c)
  {
    assert Sent(Start(c)) == {};
  }

  // ---------------------------------------------------------------- a whole update

  lemma DoKeepsShape(c: Costs, f: Fifo, e: Action)
    requires FShape(c, f) && May(c, f, e)
    ensures FShape(c, Do(c, f, e))
  {
    var g := Do(c, f, e);
    assert NodeShape(c, e.x, f.nodes[e.x]) && WorkShape(c, e.x, f.work[e.x]);
    assert NodeShape(c, e.x, g.nodes[e.x]) && WorkShape(c, e.x, g.work[e.x]);
  }

  /** f, after x has heard the next vector from s and relaxed k destinations: the node is
      what the loop makes of it, and the log has grown by exactly the vectors that the loop
      broadcasts, oldest first. */
  ghost predicate InOrder(c: Costs, f: Fifo, x: nat, s: nat, k: nat, g: Fifo)
    requires FShape(c, f) && May(c, f, Hear(x, s)) && k <= |c|
  {
    assert NodeShape(c, x, f.nodes[x]);
    var heard := Overwrite(f.nodes[x], s, f.log[s][f.pos[x][s]]);
    && g.nodes == f.nodes[x := RelaxUpTo(heard, c[x][s], s, k)]
    && g.log == f.log[x := f.log[x] + RelaxBroadcasts(heard, c[x][s], s, k)]
    && g.pos == f.pos[x := f.pos[x][s := f.pos[x][s] + 1]]
  }

  lemma HearIsInOrder(c: Costs, f: Fifo, x: nat, s: nat)
    requires FShape(c, f) && May(c, f, Hear(x, s)) && f.nodes[x].copies[s] != f.log[s][f.pos[x][s]]
    ensures InOrder(c, f, x, s, 0, Do(c, f, Hear(x, s)))
  {
    assert f.log[x] + [] == f.log[x];
  }

  lemma NextIsInOrder(c: Costs, f: Fifo, x: nat, s: nat, k: nat, g: Fifo)
    requires FShape(c, f) && May(c, f, Hear(x, s)) && k < |c| && InOrder(c, f, x, s, k, g)
    requires FShape(c, g) && g.work[x] == Relaxing(s, k)
    ensures InOrder(c, f, x, s, k + 1, Do(c, g, Next(x)))
  {
    assert NodeShape(c, x, f.nodes[x]);
    var heard := Overwrite(f.nodes[x], s, f.log[s][f.pos[x][s]]);
    var before, after := RelaxUpTo(heard, c[x][s], s, k), RelaxUpTo(heard, c[x][s], s, k + 1);
    var outs, out := RelaxBroadcasts(heard, c[x][s], s, k), if after.dv == before.dv then [] else [after.dv];
    assert f.log[x] + outs + out == f.log[x] + (outs + out);
  }

  /** x takes the next update from s and relaxes k destinations, with nothing in between. */
  ghost function Undisturbed(c: Costs, f: Fifo, x: nat, s: nat, k: nat): (g: Fifo)
    requires FShape(c, f) && May(c, f, Hear(x, s)) && f.nodes[x].copies[s] != f.log[s][f.pos[x][s]] && k <= |c|
    ensures FShape(c, g) && g.work == f.work[x := if k < |c| then Relaxing(s, k) else Idle]
    ensures InOrder(c, f, x, s, k, g)
    decreases k
  {
    if k == 0 then
      HearIsInOrder(c, f, x, s);
      DoKeepsShape(c, f, Hear(x, s));
      Do(c, f, Hear(x, s))
    else
      var before := Undisturbed(c, f, x, s, k - 1);
      NextIsInOrder(c, f, x, s, k - 1, before);
      DoKeepsShape(c, before, Next(x));
      Do(c, before, Next(x))
  }

  /** x has taken the next update from s and is done with it. */
  ghost function Taken(c: Costs, f: Fifo, x: nat, s: nat): Fifo
    requires FShape(c, f) && May(c, f, Hear(x, s))
  {
    assert NodeShape(c, x, f.nodes[x]);
    if f.nodes[x].copies[s] == f.log[s][f.pos[x][s]] then Do(c, f, Hear(x, s)) else Undisturbed(c, f, x, s, |c|)
  }

  /** A whole update, handled undisturbed, leaves the node that HandleUpdate gives and sends
      what it broadcasts, in that order. */
  lemma TakenIsHandled(c: Costs, f: Fifo, x: nat, s: nat)
    requires FShape(c, f) && May(c, f, Hear(x, s))
    ensures NodeShape(c, x, f.nodes[x])
    ensures var (node, outs) := HandleUpdate(f.nodes[x], c[x][s], s, f.log[s][f.pos[x][s]]);
            Taken(c, f, x, s) == Fifo(f.nodes[x := node], f.work, f.log[x := f.log[x] + outs],
                                      f.pos[x := f.pos[x][s := f.pos[x][s] + 1]])
  {
    assert NodeShape(c, x, f.nodes[x]);
    if f.nodes[x].copies[s] == f.log[s][f.pos[x][s]] {
      assert f.log[x] + [] == f.log[x];
    } else {
      assert f.work[x := Idle] == f.work;
    }
  }
}
