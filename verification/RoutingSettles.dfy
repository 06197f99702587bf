/** The lossy network comes to rest: updates trigger only so many broadcasts in any run,
    and from every reachable state some continuation settles at shortest paths. */
module RoutingSettles {
  import opened Sums
  import opened Topology
  import opened DistanceVector
  import opened RoutingNet
  import opened RoutingTheorems
  import opened RoutingUpdate

  // ---------------------------------------------------------------- triggered broadcasts

  /** The broadcasts that an update triggers report each fall of the sender's vector, and
      nothing else. */
  lemma OnlyFallsAreReported(c: Costs, net: Net, e: Event)
    requires Shape(c, net) && Enabled(c, net, e)
    ensures var t := Apply(c, net, e);
            && |t.nodes| == |c|
            && (!e.Broadcast? ==>
                  t.sent == net.sent
                            + if t.nodes[e.x].dv != net.nodes[e.x].dv then {Update(e.x, t.nodes[e.x].dv)} else {})
            && (e.Deliver? ==> t.sent == net.sent)
            && (forall x :: 0 <= x < |c| && t.nodes[x].dv != net.nodes[x].dv ==> e == Relax(x))
  {
    assert NodeShape(c, e.x, net.nodes[e.x]);
  }

  /** How many of the first k steps of a run changed the vector of x, and so made x
      broadcast it. */
  ghost function Triggered(c: Costs, run: seq<Net>, x: nat, k: nat): nat
    requires Run(c, run) && k < |run| && x < |c|
  {
    if k == 0 then 0 else
    RunKeeps(c, run, k - 1);
    RunKeeps(c, run, k);
    Triggered(c, run, x, k - 1) + if run[k].nodes[x].dv != run[k - 1].nodes[x].dv then 1 else 0
  }

  /** Each broadcast that updates trigger at x is paid for by a fall of its distances,
      whatever is lost, repeated or reordered: in any run there are at most as many as the
      distances have fallen by. */
  lemma {:induction false} TriggeredArePaidFor(c: Costs, run: seq<Net>, x: nat, k: nat)
    requires Run(c, run) && k < |run| && x < |c|
    ensures Shape(c, run[k]) && Triggered(c, run, x, k) + Sum(run[k].nodes[x].dv) <= Sum(c[x])
  {
    if k == 0 {
      InitShape(c);
    } else {
      TriggeredArePaidFor(c, run, x, k - 1);
      RunStepFalls(c, run, k - 1);
      NodeFalls(c, run[k - 1], run[k], x);
    }
  }

  lemma NodeFalls(c: Costs, s: Net, t: Net, x: nat)
    requires Shape(c, s) && Shape(c, t) && Falls(c, s, t) && x < |c|
    ensures Sum(t.nodes[x].dv) <= Sum(s.nodes[x].dv)
    ensures t.nodes[x].dv != s.nodes[x].dv ==> Sum(t.nodes[x].dv) < Sum(s.nodes[x].dv)
  {
    assert NodeShape(c, x, s.nodes[x]) && NodeShape(c, x, t.nodes[x]);
    SumIsMonotone(t.nodes[x].dv, s.nodes[x].dv);
  }

  // ---------------------------------------------------------------- settling

  /** The sums of all vectors, node by node. */
  ghost function Totals(c: Costs, net: Net): (r: seq<nat>)
    requires |net.nodes| == |c|
    ensures |r| == |c| && forall x :: 0 <= x < |c| ==> r[x] == Sum(net.nodes[x].dv)
  {
    seq(|c|, x requires 0 <= x < |c| => Sum(net.nodes[x].dv))
  }

  /** The copies that are not the neighbour's present vector. */
  ghost function Stale(c: Costs, net: Net): set<(nat, nat)>
    requires Shape(c, net)
  {
    set y: nat, s: nat | 0 <= y < |c| && 0 <= s < |c| && IsStale(c, net, y, s) :: (y, s)
  }

  ghost predicate IsStale(c: Costs, net: Net, y: nat, s: nat)
    requires Shape(c, net) && y < |c| && s < |c|
  {
    s in net.nodes[y].copies && net.nodes[y].copies[s] != net.nodes[s].dv
  }

  /** How many destinations a handler has yet to relax. */
  function Undone(c: Costs, work: Work): nat {
    if work.Relaxing? && work.i < |c| then |c| - work.i else 0
  }

  function Undones(c: Costs, work: seq<Work>): (r: seq<nat>)
    ensures |r| == |work| && forall x :: 0 <= x < |r| ==> r[x] == Undone(c, work[x]) <= |c|
  {
    seq(|work|, x requires 0 <= x < |work| => Undone(c, work[x]))
  }

  /** A relaxation lowers some distance, or leaves less to relax and nothing more stale. */
  lemma RelaxSettles(c: Costs, net: Net, x: nat)
    requires Shape(c, net) && Enabled(c, net, Relax(x)) && Shape(c, Apply(c, net, Relax(x)))
    ensures var t := Apply(c, net, Relax(x));
            || Sum(Totals(c, t)) < Sum(Totals(c, net))
            || (&& Sum(Totals(c, t)) == Sum(Totals(c, net)) && Stale(c, t) == Stale(c, net)
                && Sum(Undones(c, t.work)) < Sum(Undones(c, net.work)))
  {
    var t := Apply(c, net, Relax(x));
    RelaxKeepsShape(c, net, x);
    NodeFalls(c, net, t, x);
    SumUpdate(Totals(c, net), x, Sum(t.nodes[x].dv));
    assert Totals(c, t) == Totals(c, net)[x := Sum(t.nodes[x].dv)];
    if t.nodes[x].dv == net.nodes[x].dv {
      assert WorkShape(c, x, net.work[x]);
      SumUpdate(Undones(c, net.work), x, Undone(c, t.work[x]));
      assert Undones(c, t.work) == Undones(c, net.work)[x := Undone(c, t.work[x])];
      SameStale(c, net, t);
    }
  }

  lemma SameStale(c: Costs, net: Net, t: Net)
    requires Shape(c, net) && Shape(c, t)
    requires forall x :: 0 <= x < |c| ==> t.nodes[x].dv == net.nodes[x].dv && t.nodes[x].copies == net.nodes[x].copies
    ensures Stale(c, t) == Stale(c, net)
  {
    forall y: nat, s: nat | y < |c| && s < |c| ensures IsStale(c, t, y, s) <==> IsStale(c, net, y, s) {
    }
  }

  /** The state after s has announced itself and y has heard it. */
  ghost function Refreshed(c: Costs, net: Net, y: nat, s: nat): Net
    requires Shape(c, net) && y < |c| && s < |c| && s in net.nodes[y].copies
  {
    net.(nodes := net.nodes[y := Overwrite(net.nodes[y], s, net.nodes[s].dv)],
         work := net.work[y := Relaxing(s, 0)],
         sent := net.sent + {Update(s, net.nodes[s].dv)})
  }

  lemma RefreshIsReached(c: Costs, start: Net, net: Net, y: nat, s: nat)
    requires Inv(c, net) && Reaches(c, start, net)
    requires y < |c| && s < |c| && IsStale(c, net, y, s) && net.work[y].Idle?
    ensures Inv(c, Refreshed(c, net, y, s)) && Reaches(c, start, Refreshed(c, net, y, s))
  {
    var vec := net.nodes[s].dv;
    var b := Broadcast(s, vec);
    assert NodeShape(c, y, net.nodes[y]) && NodeShape(c, s, net.nodes[s]);
    assert forall i :: 0 <= i < |c| ==> Said(net, s, i, vec[i]);
    ReachesEvent(c, start, net, b);
    var a := Apply(c, net, b);
    ReachesEvent(c, start, a, Deliver(y, Update(s, vec)));
  }

  lemma RefreshSettles(c: Costs, net: Net, y: nat, s: nat)
    requires Shape(c, net) && y < |c| && s < |c| && IsStale(c, net, y, s) && Shape(c, Refreshed(c, net, y, s))
    ensures var t := Refreshed(c, net, y, s);
            && Sum(Totals(c, t)) == Sum(Totals(c, net))
            && Stale(c, t) == Stale(c, net) - {(y, s)} && (y, s) in Stale(c, net)
  {
    var t := Refreshed(c, net, y, s);
    assert forall x :: 0 <= x < |c| ==> t.nodes[x].dv == net.nodes[x].dv;
    assert Totals(c, t) == Totals(c, net);
    forall v: nat, u: nat | v < |c| && u < |c|
      ensures IsStale(c, t, v, u) <==> IsStale(c, net, v, u) && (v, u) != (y, s)
    {
    }
  }

  /** From every state that keeps the invariant, and so from every reachable state of the
      lossy network, some continuation settles. */
  lemma {:induction false} CanSettle(c: Costs, start: Net, net: Net) returns (t: Net)
    requires Inv(c, net) && Reaches(c, start, net)
    ensures Inv(c, t) && Reaches(c, start, t) && Settled(c, t)
    decreases Sum(Totals(c, net)), Stale(c, net), Sum(Undones(c, net.work))
  {
    if x: nat :| x < |c| && net.work[x].Relaxing? {
      ReachesEvent(c, start, net, Relax(x));
      RelaxSettles(c, net, x);
      t := CanSettle(c, start, Apply(c, net, Relax(x)));
    } else if y: nat, s: nat :| y < |c| && s < |c| && IsStale(c, net, y, s) {
      RefreshIsReached(c, start, net, y, s);
      RefreshSettles(c, net, y, s);
      t := CanSettle(c, start, Refreshed(c, net, y, s));
    } else {
      t := net;
      assert forall x, s :: 0 <= x < |c| && s in net.nodes[x].copies ==> Nbr(c, x, s) && !IsStale(c, net, x, s);
    }
  }

  /** Every run continues to a state in which all distances are exact. */
  lemma EveryRunCanSettle(c: Costs, run: seq<Net>) returns (more: seq<Net>)
    requires Run(c, run)
    ensures Run(c, more) && run <= more
    ensures var net := more[|more| - 1];
            && Inv(c, net) && Settled(c, net)
            && forall x, d :: 0 <= x < |c| && 0 <= d < |c| ==> IsDistance(c, x, d, net.nodes[x].dv[d])
  {
    var last := run[|run| - 1];
    RunKeeps(c, run, |run| - 1);
    ReachesSelf(c, last);
    var net := CanSettle(c, last, last);
    more := RunGoesOn(c, run, net);
    forall x, d | 0 <= x < |c| && 0 <= d < |c| ensures IsDistance(c, x, d, net.nodes[x].dv[d]) {
      SettledIsShortest(c, net, x, d);
    }
  }

  lemma RunGoesOn(c: Costs, run: seq<Net>, t: Net) returns (more: seq<Net>)
    requires Run(c, run) && Reaches(c, run[|run| - 1], t)
    ensures Run(c, more) && run <= more && more[|more| - 1] == t
  {
    var path :| Path(c, path, run[|run| - 1], t);
    more := run + path[1..];
    forall k | 0 <= k < |more| - 1 ensures StepAt(c, more, k) {
      if k < |run| - 1 {
        assert StepAt(c, run, k);
      } else {
        assert StepAt(c, path, k - (|run| - 1));
      }
    }
  }
}
