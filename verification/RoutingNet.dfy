/** Distance-vector routing as an asynchronous transition system. Route updates may be
    lost, duplicated and reordered without bound: any vector ever broadcast may be
    delivered at any later time, any number of times. */
module RoutingNet {
  import opened Topology
  import opened DistanceVector

  datatype Update = Update(src: nat, vec: seq<nat>)

  /** Where a node's packet handler stands: waiting, or about to relax destination i
      after an update from src. */
  datatype Work = Idle | Relaxing(src: nat, i: nat)

  datatype Net = Net(nodes: seq<Node>, work: seq<Work>, sent: set<Update>)

  datatype Event =
    | Deliver(x: nat, update: Update)
    | Relax(x: nat)
    | Broadcast(x: nat, vec: seq<nat>)

  function Init(c: Costs): Net {
    Net(seq(|c|, x requires 0 <= x < |c| => InitNode(c, x)), seq(|c|, _ => Idle), {})
  }

  ghost predicate NodeShape(c: Costs, x: nat, node: Node) {
    && |node.dv| == |c|
    && (forall s :: s in node.copies <==> Nbr(c, x, s))
    && (forall s :: s in node.copies ==> |node.copies[s]| == |c|)
    && (forall d :: d in node.next ==> d < |c| && Nbr(c, x, node.next[d]))
  }

  ghost predicate WorkShape(c: Costs, x: nat, work: Work) {
    work.Relaxing? ==> Nbr(c, x, work.src) && work.i < |c|
  }

  ghost predicate Shape(c: Costs, net: Net) {
    && Valid(c)
    && |net.nodes| == |c| && |net.work| == |c|
    && (forall x :: 0 <= x < |c| ==> NodeShape(c, x, net.nodes[x]))
    && (forall x :: 0 <= x < |c| ==> WorkShape(c, x, net.work[x]))
    && (forall u :: u in net.sent ==> u.src < |c| && |u.vec| == |c|)
  }

  /** A value that node x's entry for i has now, or had when some vector was sent. */
  ghost predicate Said(net: Net, x: nat, i: nat, v: nat)
    requires x < |net.nodes| && i < |net.nodes[x].dv|
  {
    v == net.nodes[x].dv[i] || exists u :: u in net.sent && u.src == x && i < |u.vec| && u.vec[i] == v
  }

  /** The update daemon reads the vector without the lock and may sleep before it sends,
      so what it broadcasts may mix entries of different ages. */
  ghost predicate Enabled(c: Costs, net: Net, e: Event)
    requires Shape(c, net)
  {
    e.x < |c| &&
    match e
    case Deliver(x, u) => net.work[x].Idle? && u in net.sent && Nbr(c, x, u.src)
    case Relax(x) => net.work[x].Relaxing?
    case Broadcast(x, vec) => |vec| == |c| && forall i :: 0 <= i < |vec| ==> Said(net, x, i, vec[i])
  }

  ghost function Apply(c: Costs, net: Net, e: Event): Net
    requires Shape(c, net) && Enabled(c, net, e)
  {
    match e
    case Deliver(x, u) =>
      var node := net.nodes[x];
      if node.copies[u.src] == u.vec then net else
      Net(net.nodes[x := Overwrite(node, u.src, u.vec)], net.work[x := Relaxing(u.src, 0)], net.sent)
    case Relax(x) =>
      var Relaxing(s, i) := net.work[x];
      var node := net.nodes[x];
      var node' := RelaxEntry(node, c[x][s], s, i);
      Net(net.nodes[x := node'],
          net.work[x := if i + 1 < |c| then Relaxing(s, i + 1) else Idle],
          if node'.dv == node.dv then net.sent else net.sent + {Update(x, node'.dv)})
    case Broadcast(x, vec) =>
      net.(sent := net.sent + {Update(x, vec)})
  }

  ghost predicate Step(c: Costs, s: Net, t: Net) {
    Shape(c, s) && exists e :: Enabled(c, s, e) && t == Apply(c, s, e)
  }

  ghost predicate Run(c: Costs, run: seq<Net>) {
    && Valid(c) && |run| > 0 && run[0] == Init(c)
    && forall k :: 0 <= k < |run| - 1 ==> StepAt(c, run, k)
  }

  ghost predicate StepAt(c: Costs, run: seq<Net>, k: nat)
    requires k + 1 < |run|
  {
    Step(c, run[k], run[k + 1])
  }

  // ---------------------------------------------------------------- the invariant

  /** The key invariant: a next hop's own distance accounts for the rest of the way. */
  ghost predicate SafeAt(c: Costs, net: Net, x: nat, d: nat)
    requires Shape(c, net) && x < |c| && d < |c|
  {
    var node := net.nodes[x];
    && node.dv[d] <= c[x][d]
    && (d in node.next <==> d != x && node.dv[d] < INFINITE_COST)
    && (d in node.next ==>
          node.dv[d] >= c[x][node.next[d]] + net.nodes[node.next[d]].dv[d])
  }

  ghost predicate Safe(c: Costs, net: Net)
    requires Shape(c, net)
  {
    forall x, d :: 0 <= x < |c| && 0 <= d < |c| ==> SafeAt(c, net, x, d)
  }

  /** vec is an old vector of s: no entry is below the present one. */
  ghost predicate Old(net: Net, s: nat, vec: seq<nat>)
    requires s < |net.nodes| && |vec| == |net.nodes[s].dv|
  {
    forall d :: 0 <= d < |vec| ==> net.nodes[s].dv[d] <= vec[d] <= INFINITE_COST
  }

  ghost predicate Heard(c: Costs, net: Net)
    requires Shape(c, net)
  {
    && (forall u :: u in net.sent ==> Old(net, u.src, u.vec))
    && (forall x, s :: 0 <= x < |c| && s in net.nodes[x].copies ==> Old(net, s, net.nodes[x].copies[s]))
  }

  /** Relaxed against the copy of s, or still queued to be. */
  ghost predicate TightAt(c: Costs, net: Net, x: nat, s: nat, d: nat)
    requires Shape(c, net) && x < |c| && d < |c| && s in net.nodes[x].copies
  {
    || net.nodes[x].dv[d] <= c[x][s] + net.nodes[x].copies[s][d]
    || (net.work[x].Relaxing? && net.work[x].src == s && net.work[x].i <= d)
  }

  ghost predicate Tight(c: Costs, net: Net)
    requires Shape(c, net)
  {
    forall x, s, d :: 0 <= x < |c| && s in net.nodes[x].copies && 0 <= d < |c| ==> TightAt(c, net, x, s, d)
  }

  /** Every finite entry is the cost of a real walk from s. */
  ghost predicate Real(c: Costs, s: nat, vec: seq<nat>) {
    forall d :: 0 <= d < |vec| && vec[d] < INFINITE_COST ==> HasWalk(c, s, d, vec[d])
  }

  ghost predicate Sound(c: Costs, net: Net)
    requires Shape(c, net)
  {
    && (forall x :: 0 <= x < |c| ==> Real(c, x, net.nodes[x].dv))
    && (forall x, s :: 0 <= x < |c| && s in net.nodes[x].copies ==> Real(c, s, net.nodes[x].copies[s]))
    && (forall u :: u in net.sent ==> Real(c, u.src, u.vec))
  }

  ghost predicate Inv(c: Costs, net: Net) {
    Shape(c, net) && Safe(c, net) && Heard(c, net) && Tight(c, net) && Sound(c, net)
  }

  /** No entry of any node's own vector has risen. */
  ghost predicate Falls(c: Costs, s: Net, t: Net)
    requires Shape(c, s) && Shape(c, t)
  {
    forall x, d :: 0 <= x < |c| && 0 <= d < |c| ==> t.nodes[x].dv[d] <= s.nodes[x].dv[d]
  }

  // ---------------------------------------------------------------- initial state

  lemma InitShape(c: Costs)
    requires Valid(c)
    ensures Shape(c, Init(c))
    ensures forall x :: 0 <= x < |c| ==> Init(c).nodes[x] == InitNode(c, x)
  {
    var net := Init(c);
    assert forall x :: 0 <= x < |c| ==> net.nodes[x] == InitNode(c, x);
    forall x | 0 <= x < |c| ensures NodeShape(c, x, net.nodes[x]) {
      assert net.nodes[x] == InitNode(c, x);
    }
  }

  lemma InitSafe(c: Costs)
    requires Valid(c)
    ensures Shape(c, Init(c)) && Safe(c, Init(c))
  {
    InitShape(c);
    var net := Init(c);
    forall x, d | 0 <= x < |c| && 0 <= d < |c| ensures SafeAt(c, net, x, d) {
      assert net.nodes[x] == InitNode(c, x);
      assert net.nodes[d] == InitNode(c, d);
    }
  }

  lemma InitCopies(c: Costs)
    requires Valid(c)
    ensures Shape(c, Init(c)) && Heard(c, Init(c)) && Tight(c, Init(c))
  {
    InitShape(c);
    var net := Init(c);
    forall x, s | 0 <= x < |c| && s in net.nodes[x].copies
      ensures Old(net, s, net.nodes[x].copies[s])
    {
      assert net.nodes[x] == InitNode(c, x);
      assert net.nodes[s] == InitNode(c, s);
      assert net.nodes[x].copies[s] == Unreached(|c|);
    }
    forall x, s, d | 0 <= x < |c| && s in net.nodes[x].copies && 0 <= d < |c| ensures TightAt(c, net, x, s, d) {
      assert net.nodes[x] == InitNode(c, x);
      assert net.nodes[x].copies[s] == Unreached(|c|);
    }
  }

  lemma LinksAreReal(c: Costs, x: nat)
    requires Valid(c) && x < |c|
    ensures Real(c, x, c[x])
  {
    forall d | 0 <= d < |c| && c[x][d] < INFINITE_COST ensures HasWalk(c, x, d, c[x][d]) {
      DirectWalk(c, x, d);
    }
  }

  lemma UnreachedIsReal(c: Costs, s: nat, n: nat)
    ensures Real(c, s, Unreached(n))
  {
  }

  lemma InitSound(c: Costs)
    requires Valid(c) && Shape(c, Init(c))
    ensures Sound(c, Init(c))
  {
    var net := Init(c);
    InitShape(c);
    forall x | 0 <= x < |c| ensures Real(c, x, net.nodes[x].dv) {
      LinksAreReal(c, x);
    }
    forall x, s | 0 <= x < |c| && s in net.nodes[x].copies ensures Real(c, s, net.nodes[x].copies[s]) {
      UnreachedIsReal(c, s, |c|);
      assert net.nodes[x] == InitNode(c, x);
    }
  }

  lemma InitHolds(c: Costs)
    requires Valid(c)
    ensures Inv(c, Init(c))
  {
    InitSafe(c);
    InitCopies(c);
    InitSound(c);
  }

  lemma DirectWalk(c: Costs, x: nat, d: nat)
    requires Valid(c) && x < |c| && d < |c| && c[x][d] < INFINITE_COST
    ensures HasWalk(c, x, d, c[x][d])
  {
    var here := [d];
    assert Walk(c, here, d, d);
    if x == d {
      assert WalkCost(c, here) == 0;
    } else {
      ExtendWalk(c, x, d, d, here);
    }
  }

  // ---------------------------------------------------------------- one step

  lemma DeliverKeepsOrder(c: Costs, net: Net, x: nat, u: Update)
    requires Shape(c, net) && Safe(c, net) && Enabled(c, net, Deliver(x, u))
    ensures var t := Apply(c, net, Deliver(x, u)); Shape(c, t) && Falls(c, net, t) && Safe(c, t)
  {
    var t := Apply(c, net, Deliver(x, u));
    assert forall y :: 0 <= y < |c| ==> t.nodes[y].dv == net.nodes[y].dv && t.nodes[y].next == net.nodes[y].next;
    assert NodeShape(c, x, t.nodes[x]) by {
      assert NodeShape(c, x, net.nodes[x]);
    }
    forall y, d | 0 <= y < |c| && 0 <= d < |c| ensures SafeAt(c, t, y, d) {
      assert SafeAt(c, net, y, d);
    }
  }

  lemma DeliverKeepsCopies(c: Costs, net: Net, x: nat, u: Update)
    requires Shape(c, net) && Heard(c, net) && Sound(c, net) && Enabled(c, net, Deliver(x, u))
    requires Shape(c, Apply(c, net, Deliver(x, u)))
    ensures var t := Apply(c, net, Deliver(x, u)); Heard(c, t) && Sound(c, t)
  {
    var t := Apply(c, net, Deliver(x, u));
    assert forall y :: 0 <= y < |c| ==> t.nodes[y].dv == net.nodes[y].dv;
    forall y, s | 0 <= y < |c| && s in t.nodes[y].copies
      ensures Old(t, s, t.nodes[y].copies[s]) && Real(c, s, t.nodes[y].copies[s])
    {
      if y == x && s == u.src {
        assert Old(net, u.src, u.vec) && Real(c, u.src, u.vec);
      } else {
        assert Old(net, s, net.nodes[y].copies[s]);
      }
    }
    forall v | v in t.sent ensures Old(t, v.src, v.vec) {
      assert Old(net, v.src, v.vec);
    }
  }

  lemma DeliverKeepsTight(c: Costs, net: Net, x: nat, u: Update)
    requires Shape(c, net) && Tight(c, net) && Enabled(c, net, Deliver(x, u))
    requires Shape(c, Apply(c, net, Deliver(x, u)))
    ensures Tight(c, Apply(c, net, Deliver(x, u)))
  {
    var t := Apply(c, net, Deliver(x, u));
    forall y, s, d | 0 <= y < |c| && s in t.nodes[y].copies && 0 <= d < |c| ensures TightAt(c, t, y, s, d) {
      if y != x || s != u.src || t == net {
        assert TightAt(c, net, y, s, d);
      }
    }
  }

  lemma MixedVectorIsOld(c: Costs, net: Net, x: nat, vec: seq<nat>)
    requires Inv(c, net) && Enabled(c, net, Broadcast(x, vec))
    ensures Old(net, x, vec) && Real(c, x, vec)
  {
    forall d | 0 <= d < |vec|
      ensures net.nodes[x].dv[d] <= vec[d] <= INFINITE_COST
      ensures vec[d] < INFINITE_COST ==> HasWalk(c, x, d, vec[d])
    {
      assert Said(net, x, d, vec[d]);
      if vec[d] == net.nodes[x].dv[d] {
        assert SafeAt(c, net, x, d);
        assert c[x][d] <= INFINITE_COST;
        assert Real(c, x, net.nodes[x].dv);
      } else {
        var u :| u in net.sent && u.src == x && d < |u.vec| && u.vec[d] == vec[d];
        assert Old(net, u.src, u.vec) && Real(c, u.src, u.vec);
      }
    }
  }

  lemma BroadcastKeeps(c: Costs, net: Net, x: nat, vec: seq<nat>)
    requires Inv(c, net) && Enabled(c, net, Broadcast(x, vec))
    ensures var t := Apply(c, net, Broadcast(x, vec)); Inv(c, t) && Falls(c, net, t)
  {
    var t := Apply(c, net, Broadcast(x, vec));
    MixedVectorIsOld(c, net, x, vec);
    forall u | u in t.sent ensures Old(t, u.src, u.vec) {
      assert u in net.sent ==> Old(net, u.src, u.vec);
    }
    forall y, s | 0 <= y < |c| && s in t.nodes[y].copies ensures Old(t, s, t.nodes[y].copies[s]) {
      assert Old(net, s, net.nodes[y].copies[s]);
    }
    forall y, d | 0 <= y < |c| && 0 <= d < |c| ensures SafeAt(c, t, y, d) {
      assert SafeAt(c, net, y, d);
    }
    forall y, s, d | 0 <= y < |c| && s in t.nodes[y].copies && 0 <= d < |c| ensures TightAt(c, t, y, s, d) {
      assert TightAt(c, net, y, s, d);
    }
  }

  /** A relaxation's candidate does not wrap and is no less than the link plus the
      sender's present distance. */
  lemma CandidateIsSafe(c: Costs, net: Net, x: nat, s: nat, i: nat)
    requires Shape(c, net) && Heard(c, net) && x < |c| && i < |c| && Nbr(c, x, s)
    ensures var cand := c[x][s] + net.nodes[x].copies[s][i];
            && Add32(c[x][s], net.nodes[x].copies[s][i]) == cand
            && cand >= c[x][s] + net.nodes[s].dv[i]
  {
    assert NodeShape(c, x, net.nodes[x]);
    assert Old(net, s, net.nodes[x].copies[s]);
  }

  lemma CandidateIsReal(c: Costs, net: Net, x: nat, s: nat, i: nat)
    requires Shape(c, net) && Sound(c, net) && x < |c| && i < |c| && Nbr(c, x, s)
    ensures var cand := c[x][s] + net.nodes[x].copies[s][i];
            cand < INFINITE_COST ==> HasWalk(c, x, i, cand)
  {
    assert NodeShape(c, x, net.nodes[x]);
    var copy := net.nodes[x].copies[s];
    assert Real(c, s, copy);
    if copy[i] < INFINITE_COST {
      ExtendHasWalk(c, x, s, i, copy[i]);
    }
  }

  lemma RelaxKeepsShape(c: Costs, net: Net, x: nat)
    requires Shape(c, net) && Enabled(c, net, Relax(x))
    ensures var t := Apply(c, net, Relax(x)); Shape(c, t) && Falls(c, net, t)
  {
    var t := Apply(c, net, Relax(x));
    assert NodeShape(c, x, net.nodes[x]);
    assert NodeShape(c, x, t.nodes[x]);
  }

  lemma RelaxKeepsOrder(c: Costs, net: Net, x: nat)
    requires Shape(c, net) && Safe(c, net) && Heard(c, net) && Enabled(c, net, Relax(x))
    requires var t := Apply(c, net, Relax(x)); Shape(c, t) && Falls(c, net, t)
    ensures Safe(c, Apply(c, net, Relax(x)))
  {
    var t := Apply(c, net, Relax(x));
    var Relaxing(s, i) := net.work[x];
    CandidateIsSafe(c, net, x, s, i);
    assert SafeAt(c, net, x, i) && c[x][x] == 0 && c[x][i] <= INFINITE_COST;
    forall y, d | 0 <= y < |c| && 0 <= d < |c| ensures SafeAt(c, t, y, d) {
      assert SafeAt(c, net, y, d);
    }
  }

  lemma RelaxKeepsCopies(c: Costs, net: Net, x: nat)
    requires Shape(c, net) && Heard(c, net) && Enabled(c, net, Relax(x))
    requires var t := Apply(c, net, Relax(x)); Shape(c, t) && Falls(c, net, t) && Safe(c, t)
    ensures Heard(c, Apply(c, net, Relax(x)))
  {
    var t := Apply(c, net, Relax(x));
    assert Old(t, x, t.nodes[x].dv) by {
      forall d | 0 <= d < |c| ensures t.nodes[x].dv[d] <= INFINITE_COST {
        assert SafeAt(c, t, x, d);
      }
    }
    forall u | u in t.sent ensures Old(t, u.src, u.vec) {
      if u in net.sent {
        assert Old(net, u.src, u.vec);
      }
    }
    forall y, v | 0 <= y < |c| && v in t.nodes[y].copies ensures Old(t, v, t.nodes[y].copies[v]) {
      assert t.nodes[y].copies == net.nodes[y].copies;
      assert Old(net, v, net.nodes[y].copies[v]);
    }
  }

  lemma RelaxKeepsTight(c: Costs, net: Net, x: nat)
    requires Shape(c, net) && Heard(c, net) && Tight(c, net) && Enabled(c, net, Relax(x))
    requires var t := Apply(c, net, Relax(x)); Shape(c, t) && Falls(c, net, t)
    ensures Tight(c, Apply(c, net, Relax(x)))
  {
    var t := Apply(c, net, Relax(x));
    var Relaxing(s, i) := net.work[x];
    CandidateIsSafe(c, net, x, s, i);
    forall y, v, d | 0 <= y < |c| && v in t.nodes[y].copies && 0 <= d < |c| ensures TightAt(c, t, y, v, d) {
      assert t.nodes[y].copies == net.nodes[y].copies;
      assert TightAt(c, net, y, v, d);
    }
  }

  lemma RelaxKeepsSound(c: Costs, net: Net, x: nat)
    requires Shape(c, net) && Heard(c, net) && Sound(c, net) && Enabled(c, net, Relax(x))
    requires Shape(c, Apply(c, net, Relax(x)))
    ensures Sound(c, Apply(c, net, Relax(x)))
  {
    var t := Apply(c, net, Relax(x));
    var Relaxing(s, i) := net.work[x];
    CandidateIsSafe(c, net, x, s, i);
    CandidateIsReal(c, net, x, s, i);
    assert Real(c, x, t.nodes[x].dv) by {
      assert Real(c, x, net.nodes[x].dv);
    }
    forall y, v | 0 <= y < |c| && v in t.nodes[y].copies ensures Real(c, v, t.nodes[y].copies[v]) {
      assert t.nodes[y].copies == net.nodes[y].copies;
    }
  }

  /** Every step keeps the invariant and lets no distance rise. */
  lemma StepKeeps(c: Costs, s: Net, t: Net)
    requires Inv(c, s) && Step(c, s, t)
    ensures Inv(c, t) && Falls(c, s, t)
  {
    var e :| Enabled(c, s, e) && t == Apply(c, s, e);
    match e {
      case Deliver(x, u) =>
        DeliverKeepsOrder(c, s, x, u);
        DeliverKeepsCopies(c, s, x, u);
        DeliverKeepsTight(c, s, x, u);
      case Relax(x) =>
        RelaxKeepsShape(c, s, x);
        RelaxKeepsOrder(c, s, x);
        RelaxKeepsCopies(c, s, x);
        RelaxKeepsTight(c, s, x);
        RelaxKeepsSound(c, s, x);
      case Broadcast(x, vec) => BroadcastKeeps(c, s, x, vec);
    }
  }

  lemma {:induction false} RunKeeps(c: Costs, run: seq<Net>, k: nat)
    requires Run(c, run) && k < |run|
    ensures Inv(c, run[k])
  {
    if k == 0 {
      InitHolds(c);
    } else {
      RunKeeps(c, run, k - 1);
      assert StepAt(c, run, k - 1);
      StepKeeps(c, run[k - 1], run[k]);
    }
  }

  lemma RunStepFalls(c: Costs, run: seq<Net>, k: nat)
    requires Run(c, run) && k + 1 < |run|
    ensures Shape(c, run[k]) && Shape(c, run[k + 1]) && Falls(c, run[k], run[k + 1])
  {
    RunKeeps(c, run, k);
    assert StepAt(c, run, k);
    StepKeeps(c, run[k], run[k + 1]);
  }

  /** Over any stretch of a run no distance rises. */
  lemma {:induction false} RunFalls(c: Costs, run: seq<Net>, j: nat, k: nat)
    requires Run(c, run) && j <= k < |run|
    ensures Shape(c, run[j]) && Shape(c, run[k]) && Falls(c, run[j], run[k])
    decreases k - j
  {
    if j < k {
      RunFalls(c, run, j, k - 1);
      RunStepFalls(c, run, k - 1);
      FallsOn(c, run[j], run[k - 1], run[k]);
    } else {
      RunKeeps(c, run, j);
    }
  }

  lemma FallsOn(c: Costs, r: Net, s: Net, t: Net)
    requires Shape(c, r) && Shape(c, s) && Shape(c, t) && Falls(c, r, s) && Falls(c, s, t)
    ensures Falls(c, r, t)
  {
    forall x, d | 0 <= x < |c| && 0 <= d < |c| ensures t.nodes[x].dv[d] <= r.nodes[x].dv[d] {
      assert s.nodes[x].dv[d] <= r.nodes[x].dv[d];
    }
  }
}
