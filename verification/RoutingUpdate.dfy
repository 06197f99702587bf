/** A whole route update handled in one go, as the packet handler's code reads, is a run of
    the small steps of the lossy system. */
module RoutingUpdate {
  import opened Topology
  import opened DistanceVector
  import opened RoutingNet

  // ---------------------------------------------------------------- reachability

  ghost predicate Path(c: Costs, run: seq<Net>, s: Net, t: Net) {
    && |run| > 0 && run[0] == s && run[|run| - 1] == t
    && forall k :: 0 <= k < |run| - 1 ==> StepAt(c, run, k)
  }

  /** t follows from s by steps of the lossy system. */
  ghost predicate Reaches(c: Costs, s: Net, t: Net) {
    exists run :: Path(c, run, s, t)
  }

  lemma ReachesSelf(c: Costs, s: Net)
    ensures Reaches(c, s, s)
  {
    assert Path(c, [s], s, s);
  }

  lemma ReachesOneMore(c: Costs, s: Net, t: Net, u: Net)
    requires Reaches(c, s, t) && Step(c, t, u)
    ensures Reaches(c, s, u)
  {
    var run :| Path(c, run, s, t);
    var more := run + [u];
    forall k | 0 <= k < |more| - 1 ensures StepAt(c, more, k) {
      assert k < |run| - 1 ==> StepAt(c, run, k);
    }
    assert Path(c, more, s, u);
  }

  lemma ReachesOn(c: Costs, s: Net, t: Net, u: Net)
    requires Reaches(c, s, t) && Reaches(c, t, u)
    ensures Reaches(c, s, u)
  {
    var p, q :| Path(c, p, s, t) && Path(c, q, t, u);
    var run := p + q[1..];
    forall k | 0 <= k < |run| - 1 ensures StepAt(c, run, k) {
      if k < |p| - 1 {
        assert StepAt(c, p, k);
      } else {
        assert StepAt(c, q, k - (|p| - 1));
      }
    }
    assert Path(c, run, s, u);
  }

  lemma ReachedByRun(c: Costs, t: Net) returns (run: seq<Net>)
    requires Valid(c) && Reaches(c, Init(c), t)
    ensures Run(c, run) && run[|run| - 1] == t
  {
    run :| Path(c, run, Init(c), t);
  }

  lemma ReachesEvent(c: Costs, s: Net, t: Net, e: Event)
    requires Inv(c, t) && Reaches(c, s, t) && Enabled(c, t, e)
    ensures Inv(c, Apply(c, t, e)) && Reaches(c, s, Apply(c, t, e))
  {
    assert Step(c, t, Apply(c, t, e));
    StepKeeps(c, t, Apply(c, t, e));
    ReachesOneMore(c, s, t, Apply(c, t, e));
  }

  ghost function FromMe(x: nat, vecs: seq<seq<nat>>): set<Update> {
    set k | 0 <= k < |vecs| :: Update(x, vecs[k])
  }

  lemma FromMeSingle(x: nat, vec: seq<nat>)
    ensures FromMe(x, []) == {} && FromMe(x, [vec]) == {Update(x, vec)}
  {
    assert Update(x, [vec][0]) in FromMe(x, [vec]);
  }

  lemma FromMeAppends(x: nat, a: seq<seq<nat>>, b: seq<seq<nat>>)
    ensures FromMe(x, a + b) == FromMe(x, a) + FromMe(x, b)
  {
    forall u | u in FromMe(x, a) + FromMe(x, b) ensures u in FromMe(x, a + b) {
      if u in FromMe(x, a) {
        var k :| 0 <= k < |a| && u == Update(x, a[k]);
        assert (a + b)[k] == a[k];
      } else {
        var k :| 0 <= k < |b| && u == Update(x, b[k]);
        assert (a + b)[|a| + k] == b[k];
      }
    }
  }

  // ---------------------------------------------------------------- one update

  /** The lossy system after delivery of a changed vector and k relaxations. */
  ghost function Midway(c: Costs, net: Net, x: nat, s: nat, vec: seq<nat>, k: nat): Net
    requires Shape(c, net) && Nbr(c, x, s) && |vec| == |c| && k <= |c|
  {
    assert NodeShape(c, x, net.nodes[x]);
    var heard := Overwrite(net.nodes[x], s, vec);
    Net(net.nodes[x := RelaxUpTo(heard, c[x][s], s, k)],
        net.work[x := if k < |c| then Relaxing(s, k) else Idle],
        net.sent + FromMe(x, RelaxBroadcasts(heard, c[x][s], s, k)))
  }

  lemma DeliveredIsMidway(c: Costs, net: Net, x: nat, s: nat, vec: seq<nat>)
    requires Shape(c, net) && Enabled(c, net, Deliver(x, Update(s, vec)))
    requires net.nodes[x].copies[s] != vec
    ensures Apply(c, net, Deliver(x, Update(s, vec))) == Midway(c, net, x, s, vec, 0)
  {
    assert FromMe(x, []) == {};
  }

  lemma RelaxedIsMidway(c: Costs, net: Net, x: nat, s: nat, vec: seq<nat>, k: nat)
    requires Shape(c, net) && Nbr(c, x, s) && |vec| == |c| && k < |c|
    requires Shape(c, Midway(c, net, x, s, vec, k))
    ensures Apply(c, Midway(c, net, x, s, vec, k), Relax(x)) == Midway(c, net, x, s, vec, k + 1)
  {
    assert NodeShape(c, x, net.nodes[x]);
    var heard := Overwrite(net.nodes[x], s, vec);
    var before, after := RelaxUpTo(heard, c[x][s], s, k), RelaxUpTo(heard, c[x][s], s, k + 1);
    var outs := RelaxBroadcasts(heard, c[x][s], s, k);
    var out := if after.dv == before.dv then [] else [after.dv];
    FromMeAppends(x, outs, out);
    FromMeSingle(x, after.dv);
    assert RelaxBroadcasts(heard, c[x][s], s, k + 1) == outs + out;
    var t, u := Apply(c, Midway(c, net, x, s, vec, k), Relax(x)), Midway(c, net, x, s, vec, k + 1);
    assert t.nodes == u.nodes && t.work == u.work;
    assert t.sent == u.sent;
  }

  lemma {:induction false} MidwayShape(c: Costs, net: Net, x: nat, s: nat, vec: seq<nat>, k: nat)
    requires Shape(c, net) && Enabled(c, net, Deliver(x, Update(s, vec))) && |vec| == |c| && k <= |c|
    requires net.nodes[x].copies[s] != vec
    ensures Shape(c, Midway(c, net, x, s, vec, k))
  {
    if k == 0 {
      FirstMidwayShape(c, net, x, s, vec);
    } else {
      MidwayShape(c, net, x, s, vec, k - 1);
      NextMidwayShape(c, net, x, s, vec, k - 1);
    }
  }

  lemma FirstMidwayShape(c: Costs, net: Net, x: nat, s: nat, vec: seq<nat>)
    requires Shape(c, net) && Enabled(c, net, Deliver(x, Update(s, vec))) && |vec| == |c|
    requires net.nodes[x].copies[s] != vec
    ensures Shape(c, Midway(c, net, x, s, vec, 0))
  {
    DeliveredIsMidway(c, net, x, s, vec);
    assert NodeShape(c, x, net.nodes[x]);
    assert NodeShape(c, x, Midway(c, net, x, s, vec, 0).nodes[x]);
  }

  lemma NextMidwayShape(c: Costs, net: Net, x: nat, s: nat, vec: seq<nat>, k: nat)
    requires Shape(c, net) && Nbr(c, x, s) && |vec| == |c| && k < |c|
    requires Shape(c, Midway(c, net, x, s, vec, k))
    ensures Shape(c, Midway(c, net, x, s, vec, k + 1))
  {
    var m := Midway(c, net, x, s, vec, k);
    RelaxedIsMidway(c, net, x, s, vec, k);
    RelaxKeepsShape(c, m, x);
  }

  lemma StepBy(c: Costs, s: Net, t: Net, e: Event)
    requires Shape(c, s) && Enabled(c, s, e) && t == Apply(c, s, e)
    ensures Step(c, s, t)
  {
  }

  lemma FirstMidwayIsStep(c: Costs, net: Net, x: nat, s: nat, vec: seq<nat>)
    requires Shape(c, net) && Enabled(c, net, Deliver(x, Update(s, vec))) && |vec| == |c|
    requires net.nodes[x].copies[s] != vec
    ensures Step(c, net, Midway(c, net, x, s, vec, 0))
  {
    DeliveredIsMidway(c, net, x, s, vec);
    StepBy(c, net, Midway(c, net, x, s, vec, 0), Deliver(x, Update(s, vec)));
  }

  lemma NextMidwayIsStep(c: Costs, net: Net, x: nat, s: nat, vec: seq<nat>, k: nat)
    requires Shape(c, net) && Nbr(c, x, s) && |vec| == |c| && k < |c|
    requires Shape(c, Midway(c, net, x, s, vec, k))
    ensures Step(c, Midway(c, net, x, s, vec, k), Midway(c, net, x, s, vec, k + 1))
  {
    RelaxedIsMidway(c, net, x, s, vec, k);
    StepBy(c, Midway(c, net, x, s, vec, k), Midway(c, net, x, s, vec, k + 1), Relax(x));
  }

  lemma {:induction false} MidwayIsReached(c: Costs, net: Net, x: nat, s: nat, vec: seq<nat>, k: nat)
    requires Shape(c, net) && Enabled(c, net, Deliver(x, Update(s, vec))) && |vec| == |c| && k <= |c|
    requires net.nodes[x].copies[s] != vec
    ensures Reaches(c, net, Midway(c, net, x, s, vec, k))
  {
    if k == 0 {
      ReachesSelf(c, net);
      FirstMidwayIsStep(c, net, x, s, vec);
      ReachesOneMore(c, net, net, Midway(c, net, x, s, vec, 0));
    } else {
      MidwayIsReached(c, net, x, s, vec, k - 1);
      MidwayShape(c, net, x, s, vec, k - 1);
      NextMidwayIsStep(c, net, x, s, vec, k - 1);
      ReachesOneMore(c, net, Midway(c, net, x, s, vec, k - 1), Midway(c, net, x, s, vec, k));
    }
  }

  lemma {:induction false} PathKeeps(c: Costs, run: seq<Net>, s: Net, t: Net, k: nat)
    requires Path(c, run, s, t) && Inv(c, s) && k < |run|
    ensures Inv(c, run[k])
  {
    if k > 0 {
      PathKeeps(c, run, s, t, k - 1);
      assert StepAt(c, run, k - 1);
      StepKeeps(c, run[k - 1], run[k]);
    }
  }

  lemma ReachesKeeps(c: Costs, s: Net, t: Net)
    requires Reaches(c, s, t) && Inv(c, s)
    ensures Inv(c, t)
  {
    var run :| Path(c, run, s, t);
    PathKeeps(c, run, s, t, |run| - 1);
  }

  /** The lossy system after x has handled an update from s undisturbed. */
  ghost function Handled(c: Costs, net: Net, x: nat, s: nat, vec: seq<nat>): Net
    requires Shape(c, net) && Nbr(c, x, s) && |vec| == |c|
  {
    assert NodeShape(c, x, net.nodes[x]);
    var (node, outs) := HandleUpdate(net.nodes[x], c[x][s], s, vec);
    net.(nodes := net.nodes[x := node], sent := net.sent + FromMe(x, outs))
  }

  lemma UpdateRefines(c: Costs, net: Net, x: nat, s: nat, vec: seq<nat>)
    requires Inv(c, net) && Enabled(c, net, Deliver(x, Update(s, vec)))
    ensures |vec| == |c| && Reaches(c, net, Handled(c, net, x, s, vec)) && Inv(c, Handled(c, net, x, s, vec))
  {
    assert Update(s, vec) in net.sent;
    assert NodeShape(c, x, net.nodes[x]);
    var t := Handled(c, net, x, s, vec);
    if net.nodes[x].copies[s] == vec {
      assert FromMe(x, []) == {};
      assert t == net;
      ReachesSelf(c, net);
    } else {
      MidwayIsReached(c, net, x, s, vec, |c|);
      assert t.work == net.work[x := Idle];
      assert t == Midway(c, net, x, s, vec, |c|);
    }
    ReachesKeeps(c, net, t);
  }
}
