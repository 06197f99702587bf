/** What distance-vector routing promises over every run: no forwarding loop at any
    moment, delivery while tables change, and shortest paths once the news has spread. */
module RoutingTheorems {
  import opened Topology
  import opened DistanceVector
  import opened RoutingNet

  // ---------------------------------------------------------------- loop freedom

  /** p follows the next hops for d, in one state. */
  ghost predicate Hops(c: Costs, net: Net, d: nat, p: seq<nat>)
    requires Shape(c, net)
  {
    && |p| >= 1
    && (forall i :: 0 <= i < |p| ==> p[i] < |c|)
    && (forall i :: 0 <= i < |p| - 1 ==> HopAt(c, net, d, p, i))
  }

  ghost predicate HopAt(c: Costs, net: Net, d: nat, p: seq<nat>, i: nat)
    requires Shape(c, net) && i + 1 < |p|
  {
    p[i] < |c| && d in net.nodes[p[i]].next && net.nodes[p[i]].next[d] == p[i + 1]
  }

  lemma NextHopFalls(c: Costs, net: Net, x: nat, d: nat)
    requires Inv(c, net) && x < |c| && d in net.nodes[x].next
    ensures var n := net.nodes[x].next[d];
            && Nbr(c, x, n) && d < |c|
            && net.nodes[n].dv[d] + c[x][n] <= net.nodes[x].dv[d] < INFINITE_COST
            && net.nodes[n].dv[d] < net.nodes[x].dv[d]
            && (n == d || d in net.nodes[n].next)
  {
    assert NodeShape(c, x, net.nodes[x]);
    var n := net.nodes[x].next[d];
    assert SafeAt(c, net, x, d) && SafeAt(c, net, n, d);
  }

  lemma {:induction false} HopsFall(c: Costs, net: Net, d: nat, p: seq<nat>, i: nat, j: nat)
    requires Inv(c, net) && d < |c| && Hops(c, net, d, p) && i <= j < |p|
    ensures net.nodes[p[j]].dv[d] + (j - i) <= net.nodes[p[i]].dv[d]
    decreases j - i
  {
    if i < j {
      HopsFall(c, net, d, p, i, j - 1);
      assert HopAt(c, net, d, p, j - 1);
      NextHopFalls(c, net, p[j - 1], d);
    }
  }

  /** In every reachable state the next-hop graph towards any d has no cycle. */
  lemma LoopFreedom(c: Costs, run: seq<Net>, k: nat, d: nat, p: seq<nat>, i: nat, j: nat)
    requires Run(c, run) && k < |run|
    requires d < |c| && Shape(c, run[k]) && Hops(c, run[k], d, p) && i < j < |p|
    ensures p[i] != p[j]
    ensures run[k].nodes[p[j]].dv[d] < run[k].nodes[p[i]].dv[d]
  {
    RunKeeps(c, run, k);
    HopsFall(c, run[k], d, p, i, j);
  }

  /** The nodes that next hops lead through, up to and including d. */
  ghost function Route(c: Costs, net: Net, x: nat, d: nat): (r: seq<nat>)
    requires Inv(c, net) && x < |c| && d < |c| && net.nodes[x].dv[d] < INFINITE_COST
    ensures Walk(c, r, x, d)
    ensures WalkCost(c, r) <= net.nodes[x].dv[d]
    decreases net.nodes[x].dv[d]
  {
    assert SafeAt(c, net, x, d);
    if x == d then [d] else
    NextHopFalls(c, net, x, d);
    var n := net.nodes[x].next[d];
    var rest := Route(c, net, n, d);
    ExtendWalk(c, x, n, d, rest);
    [x] + rest
  }

  lemma {:induction false} RouteFollowsNextHops(c: Costs, net: Net, x: nat, d: nat, i: nat)
    requires Inv(c, net) && x < |c| && d < |c| && net.nodes[x].dv[d] < INFINITE_COST
    requires i + 1 < |Route(c, net, x, d)|
    ensures HopAt(c, net, d, Route(c, net, x, d), i)
    decreases net.nodes[x].dv[d]
  {
    assert SafeAt(c, net, x, d);
    NextHopFalls(c, net, x, d);
    var n := net.nodes[x].next[d];
    var r := Route(c, net, x, d);
    assert r == [x] + Route(c, net, n, d);
    if i > 0 {
      RouteFollowsNextHops(c, net, n, d, i - 1);
      assert HopAt(c, net, d, Route(c, net, n, d), i - 1);
    } else {
      assert Walk(c, Route(c, net, n, d), n, d);
    }
  }

  lemma RouteIsSimple(c: Costs, net: Net, x: nat, d: nat)
    requires Inv(c, net) && x < |c| && d < |c| && net.nodes[x].dv[d] < INFINITE_COST
    ensures Hops(c, net, d, Route(c, net, x, d))
    ensures |Route(c, net, x, d)| <= |c|
  {
    var r := Route(c, net, x, d);
    forall i | 0 <= i < |r| ensures r[i] < |c| {
      WalkStaysInside(c, r, x, d, i);
    }
    forall i | 0 <= i < |r| - 1 ensures HopAt(c, net, d, r, i) {
      RouteFollowsNextHops(c, net, x, d, i);
    }
    if |r| > |c| {
      Pigeonhole(r, |c|);
      var i, j :| 0 <= i < j < |r| && r[i] == r[j];
      HopsFall(c, net, d, r, i, j);
    }
  }

  /** A node with a finite distance never dead-ends: next hops lead from x to d, through
      each node at most once, at no more than the advertised cost. */
  lemma NoDeadEnd(c: Costs, run: seq<Net>, k: nat, x: nat, d: nat) returns (r: seq<nat>)
    requires Run(c, run) && k < |run| && x < |c| && d < |c|
    requires Shape(c, run[k]) && run[k].nodes[x].dv[d] < INFINITE_COST
    ensures Hops(c, run[k], d, r) && |r| <= |c|
    ensures Walk(c, r, x, d) && WalkCost(c, r) <= run[k].nodes[x].dv[d]
  {
    RunKeeps(c, run, k);
    r := Route(c, run[k], x, d);
    RouteIsSimple(c, run[k], x, d);
  }

  /** A next hop is known exactly for the other nodes at a finite distance; so a segment
      that the local transport addresses to its own node is never deliverable. */
  lemma NextHopsKnown(c: Costs, run: seq<Net>, k: nat, x: nat, d: nat)
    requires Run(c, run) && k < |run| && x < |c| && d < |c|
    ensures Shape(c, run[k])
    ensures d in run[k].nodes[x].next <==> d != x && run[k].nodes[x].dv[d] < INFINITE_COST
  {
    RunKeeps(c, run, k);
    assert SafeAt(c, run[k], x, d);
  }

  // ---------------------------------------------------------------- forwarding

  /** A packet for d in a network whose tables keep changing: where it is and what the
      links it has crossed cost. */
  datatype World = World(net: Net, at: nat, spent: nat, hops: nat)

  ghost predicate WorldStep(c: Costs, d: nat, s: World, t: World) {
    || (Step(c, s.net, t.net) && t == s.(net := t.net))
    || (&& s.at < |s.net.nodes| && s.at != d && d in s.net.nodes[s.at].next
        && t == World(s.net, s.net.nodes[s.at].next[d],
                      s.spent + Link(c, s.at, s.net.nodes[s.at].next[d]), s.hops + 1))
  }

  ghost predicate WorldStepAt(c: Costs, d: nat, w: seq<World>, k: nat)
    requires k + 1 < |w|
  {
    WorldStep(c, d, w[k], w[k + 1])
  }

  /** Any interleaving of hops with route updates, from a state with a finite distance. */
  ghost predicate Journey(c: Costs, d: nat, w: seq<World>) {
    && |w| > 0 && Inv(c, w[0].net)
    && w[0].spent == 0 && w[0].hops == 0 && w[0].at < |c| && d < |c|
    && w[0].net.nodes[w[0].at].dv[d] < INFINITE_COST
    && forall k :: 0 <= k < |w| - 1 ==> WorldStepAt(c, d, w, k)
  }

  lemma WorldStepPays(c: Costs, d: nat, s: World, t: World)
    requires Inv(c, s.net) && s.at < |c| && d < |c| && WorldStep(c, d, s, t)
    requires s.net.nodes[s.at].dv[d] < INFINITE_COST
    ensures Inv(c, t.net) && t.at < |c|
    ensures t.spent + t.net.nodes[t.at].dv[d] <= s.spent + s.net.nodes[s.at].dv[d]
    ensures t.hops + s.spent <= s.hops + t.spent
    ensures t.net.nodes[t.at].dv[d] < INFINITE_COST
    ensures t.at == d || d in t.net.nodes[t.at].next
  {
    if Step(c, s.net, t.net) && t == s.(net := t.net) {
      StepKeeps(c, s.net, t.net);
    } else {
      NextHopFalls(c, s.net, s.at, d);
    }
    assert SafeAt(c, t.net, t.at, d);
  }

  /** The packet's account: what it has spent and what its present node still promises
      never exceed the distance at which it was injected, each hop costs at least one,
      and short of d the present node always has a next hop. */
  lemma {:induction false} PacketMeetsItsBudget(c: Costs, d: nat, w: seq<World>, k: nat)
    requires Journey(c, d, w) && k < |w|
    ensures Inv(c, w[k].net) && w[k].at < |c|
    ensures w[k].spent + w[k].net.nodes[w[k].at].dv[d] <= w[0].net.nodes[w[0].at].dv[d]
    ensures w[k].hops <= w[k].spent
    ensures w[k].at == d || d in w[k].net.nodes[w[k].at].next
  {
    if k == 0 {
      assert SafeAt(c, w[0].net, w[0].at, d);
    } else {
      PacketMeetsItsBudget(c, d, w, k - 1);
      assert WorldStepAt(c, d, w, k - 1);
      WorldStepPays(c, d, w[k - 1], w[k]);
    }
  }

  /** Once it has made as many hops as its injection distance, the packet is at d. */
  lemma PacketArrives(c: Costs, d: nat, w: seq<World>, k: nat)
    requires Journey(c, d, w) && k < |w|
    requires w[k].hops >= w[0].net.nodes[w[0].at].dv[d]
    ensures w[k].at == d
  {
    PacketMeetsItsBudget(c, d, w, k);
    if w[k].at != d {
      NextHopFalls(c, w[k].net, w[k].at, d);
    }
  }

  // ---------------------------------------------------------------- convergence

  /** No node is mid-update, and every copy equals the neighbour's present vector. */
  ghost predicate Settled(c: Costs, net: Net)
    requires Shape(c, net)
  {
    && (forall x :: 0 <= x < |c| ==> net.work[x].Idle?)
    && (forall x, s :: 0 <= x < |c| && s in net.nodes[x].copies ==> net.nodes[x].copies[s] == net.nodes[s].dv)
  }

  lemma {:induction false} SettledBelowWalks(c: Costs, net: Net, p: seq<nat>, x: nat, d: nat)
    requires Inv(c, net) && Settled(c, net) && Walk(c, p, x, d)
    ensures d < |c| && net.nodes[x].dv[d] <= WalkCost(c, p)
    decreases |p|
  {
    if |p| == 1 {
      assert SafeAt(c, net, x, d);
    } else {
      var s := p[1];
      SettledBelowWalks(c, net, p[1..], s, d);
      assert NodeShape(c, x, net.nodes[x]);
      assert TightAt(c, net, x, s, d);
    }
  }

  lemma SettledIsShortest(c: Costs, net: Net, x: nat, d: nat)
    requires Inv(c, net) && Settled(c, net) && x < |c| && d < |c|
    ensures IsDistance(c, x, d, net.nodes[x].dv[d])
    ensures net.nodes[x].dv[d] < INFINITE_COST ==> WalkCost(c, Route(c, net, x, d)) == net.nodes[x].dv[d]
  {
    forall p | Walk(c, p, x, d) ensures net.nodes[x].dv[d] <= WalkCost(c, p) {
      SettledBelowWalks(c, net, p, x, d);
    }
    assert SafeAt(c, net, x, d);
    assert Real(c, x, net.nodes[x].dv);
  }

  /** Convergence: in any settled state of any run, D is the distance capped at 999 and
      next hops follow a cheapest walk. */
  lemma Convergence(c: Costs, run: seq<Net>, k: nat, x: nat, d: nat)
    requires Run(c, run) && k < |run| && x < |c| && d < |c|
    requires Shape(c, run[k]) && Settled(c, run[k])
    ensures Inv(c, run[k])
    ensures IsDistance(c, x, d, run[k].nodes[x].dv[d])
    ensures run[k].nodes[x].dv[d] < INFINITE_COST ==>
              IsDistance(c, x, d, WalkCost(c, Route(c, run[k], x, d)))
  {
    RunKeeps(c, run, k);
    SettledIsShortest(c, run[k], x, d);
  }

  /** However two runs went, their settled states hold the same distances. */
  lemma SettledStatesAgree(c: Costs, a: seq<Net>, i: nat, b: seq<Net>, j: nat, x: nat, d: nat)
    requires Run(c, a) && Run(c, b) && i < |a| && j < |b| && x < |c| && d < |c|
    requires Shape(c, a[i]) && Settled(c, a[i]) && Shape(c, b[j]) && Settled(c, b[j])
    ensures a[i].nodes[x].dv[d] == b[j].nodes[x].dv[d]
  {
    Convergence(c, a, i, x, d);
    Convergence(c, b, j, x, d);
    DistanceIsUnique(c, x, d, a[i].nodes[x].dv[d], b[j].nodes[x].dv[d]);
  }

  /** Soundness: a finite distance, copy or broadcast entry is what some walk costs. */
  lemma EveryEntryIsAWalk(c: Costs, run: seq<Net>, k: nat, d: nat)
    requires Run(c, run) && k < |run| && d < |c|
    ensures Shape(c, run[k])
    ensures forall x :: 0 <= x < |c| && run[k].nodes[x].dv[d] < INFINITE_COST ==>
              HasWalk(c, x, d, run[k].nodes[x].dv[d])
    ensures forall x, s ::
              0 <= x < |c| && s in run[k].nodes[x].copies && run[k].nodes[x].copies[s][d] < INFINITE_COST ==>
                HasWalk(c, s, d, run[k].nodes[x].copies[s][d])
    ensures forall u :: u in run[k].sent && u.vec[d] < INFINITE_COST ==> HasWalk(c, u.src, d, u.vec[d])
  {
    RunKeeps(c, run, k);
    var net := run[k];
    forall x | 0 <= x < |c| && net.nodes[x].dv[d] < INFINITE_COST ensures HasWalk(c, x, d, net.nodes[x].dv[d]) {
      assert Real(c, x, net.nodes[x].dv);
    }
    forall x, s | 0 <= x < |c| && s in net.nodes[x].copies && net.nodes[x].copies[s][d] < INFINITE_COST
      ensures HasWalk(c, s, d, net.nodes[x].copies[s][d])
    {
      assert Real(c, s, net.nodes[x].copies[s]);
    }
    forall u | u in net.sent && u.vec[d] < INFINITE_COST ensures HasWalk(c, u.src, d, u.vec[d]) {
      assert Real(c, u.src, u.vec);
    }
  }

  // ---------------------------------------------------------------- rounds

  ghost predicate WalkOfEdges(c: Costs, p: seq<nat>, x: nat, d: nat, most: nat) {
    Walk(c, p, x, d) && d < |c| && |p| <= most + 1
  }

  /** D is at most the cost of any walk of at most k + 1 edges. */
  ghost predicate Level(c: Costs, net: Net, k: nat)
    requires Shape(c, net)
  {
    forall p: seq<nat>, x: nat, d: nat :: WalkOfEdges(c, p, x, d, k + 1) ==> net.nodes[x].dv[d] <= WalkCost(c, p)
  }

  /** At moment m, x is done with an update from s no staler than s was at moment i. */
  ghost predicate Caught(c: Costs, run: seq<Net>, i: nat, m: nat, x: nat, s: nat) {
    && i <= m < |run| && Shape(c, run[i]) && Shape(c, run[m]) && x < |c| && Nbr(c, x, s)
    && run[m].work[x].Idle?
    && forall d :: 0 <= d < |c| ==> run[m].nodes[x].copies[s][d] <= run[i].nodes[s].dv[d]
  }

  /** A full exchange round between moments i and j. */
  ghost predicate Round(c: Costs, run: seq<Net>, i: nat, j: nat) {
    forall x, s :: 0 <= x < |c| && Nbr(c, x, s) ==> exists m: nat :: m <= j && Caught(c, run, i, m, x, s)
  }

  lemma {:induction false} FirstLevel(c: Costs, net: Net)
    requires Inv(c, net)
    ensures Level(c, net, 0)
  {
    forall p: seq<nat>, x: nat, d: nat | WalkOfEdges(c, p, x, d, 1) ensures net.nodes[x].dv[d] <= WalkCost(c, p) {
      assert SafeAt(c, net, x, d);
      if |p| == 2 {
        assert Walk(c, p[1..], p[1], d);
      }
    }
  }

  lemma CaughtUp(c: Costs, run: seq<Net>, i: nat, m: nat, j: nat, x: nat, s: nat, d: nat)
    requires Run(c, run) && j < |run| && m <= j && d < |c| && Caught(c, run, i, m, x, s)
    ensures Shape(c, run[j]) && run[j].nodes[x].dv[d] <= c[x][s] + run[i].nodes[s].dv[d]
  {
    RunFalls(c, run, m, j);
    RunKeeps(c, run, m);
    assert NodeShape(c, x, run[m].nodes[x]);
    assert TightAt(c, run[m], x, s, d);
  }

  lemma RoundReachesWalk(c: Costs, run: seq<Net>, i: nat, j: nat, p: seq<nat>, x: nat, d: nat)
    requires Run(c, run) && i <= j < |run| && Round(c, run, i, j)
    requires Walk(c, p, x, d) && d < |c| && Shape(c, run[i]) && Shape(c, run[j])
    requires |p| > 1 ==> run[i].nodes[p[1]].dv[d] <= WalkCost(c, p[1..])
    ensures run[j].nodes[x].dv[d] <= WalkCost(c, p)
  {
    if |p| == 1 {
      RunKeeps(c, run, j);
      assert SafeAt(c, run[j], x, d);
    } else {
      var m: nat :| m <= j && Caught(c, run, i, m, x, p[1]);
      CaughtUp(c, run, i, m, j, x, p[1], d);
    }
  }

  lemma RoundRaisesLevel(c: Costs, run: seq<Net>, i: nat, j: nat, k: nat)
    requires Run(c, run) && i <= j < |run| && Round(c, run, i, j)
    requires Shape(c, run[i]) && Shape(c, run[j]) && Level(c, run[i], k)
    ensures Level(c, run[j], k + 1)
  {
    forall p: seq<nat>, x: nat, d: nat | WalkOfEdges(c, p, x, d, k + 2)
      ensures run[j].nodes[x].dv[d] <= WalkCost(c, p)
    {
      if |p| > 1 {
        assert WalkOfEdges(c, p[1..], p[1], d, k + 1);
      }
      RoundReachesWalk(c, run, i, j, p, x, d);
    }
  }

  /** ends[r] is the moment at which round r is over; round 0 starts at moment 0. */
  ghost predicate Rounds(c: Costs, run: seq<Net>, ends: seq<nat>) {
    && (forall r :: 0 <= r < |ends| ==> ends[r] < |run|)
    && (forall r :: 0 <= r < |ends| ==>
          && (if r == 0 then 0 else ends[r - 1]) <= ends[r]
          && Round(c, run, if r == 0 then 0 else ends[r - 1], ends[r]))
  }

  lemma {:induction false} RoundBound(c: Costs, run: seq<Net>, ends: seq<nat>, k: nat)
    requires Run(c, run) && Rounds(c, run, ends) && k <= |ends|
    ensures var j := if k == 0 then 0 else ends[k - 1];
            Shape(c, run[j]) && Level(c, run[j], k)
  {
    if k == 0 {
      RunKeeps(c, run, 0);
      FirstLevel(c, run[0]);
    } else {
      RoundBound(c, run, ends, k - 1);
      RunKeeps(c, run, ends[k - 1]);
      RoundRaisesLevel(c, run, if k == 1 then 0 else ends[k - 2], ends[k - 1], k - 1);
    }
  }

  /** With n nodes, n - 2 rounds suffice for exact distances, whatever is lost or
      reordered meanwhile. */
  lemma RoundsReachDistances(c: Costs, run: seq<Net>, ends: seq<nat>, x: nat, d: nat)
    requires Run(c, run) && Rounds(c, run, ends) && |ends| + 2 >= |c|
    requires x < |c| && d < |c|
    ensures var j := if ends == [] then 0 else ends[|ends| - 1];
            Shape(c, run[j]) && IsDistance(c, x, d, run[j].nodes[x].dv[d])
  {
    var j := if ends == [] then 0 else ends[|ends| - 1];
    RoundBound(c, run, ends, |ends|);
    RunKeeps(c, run, j);
    forall p | Walk(c, p, x, d) ensures run[j].nodes[x].dv[d] <= WalkCost(c, p) {
      var q := ShortWalkIsEnough(c, p, x, d);
      assert WalkOfEdges(c, q, x, d, |ends| + 1);
    }
    assert SafeAt(c, run[j], x, d);
    assert Real(c, x, run[j].nodes[x].dv);
  }
}
