/** The textbook rule, a full recomputation over all neighbours, against the incremental
    minimum that the code takes: when the two agree, and how they come apart. */
module RoutingTextbook {
  import opened Basics
  import opened Topology
  import opened DistanceVector
  import opened RoutingNet
  import opened RoutingUpdate

  /** The full recomputation over the first k nodes: the direct link, or the best
      neighbour by its present copy. */
  ghost function Textbook(c: Costs, node: Node, x: nat, d: nat, k: nat): nat
    requires Valid(c) && NodeShape(c, x, node) && x < |c| && d < |c| && k <= |c|
  {
    if k == 0 then c[x][d]
    else if Nbr(c, x, k - 1) then
      Min(Textbook(c, node, x, d, k - 1), c[x][k - 1] + node.copies[k - 1][d])
    else
      Textbook(c, node, x, d, k - 1)
  }

  lemma {:induction false} TextbookIsLeast(c: Costs, node: Node, x: nat, d: nat, k: nat)
    requires Valid(c) && NodeShape(c, x, node) && x < |c| && d < |c| && k <= |c|
    ensures var t := Textbook(c, node, x, d, k);
            && t <= c[x][d]
            && (forall s :: 0 <= s < k && Nbr(c, x, s) ==> t <= c[x][s] + node.copies[s][d])
            && (t == c[x][d] || exists s :: 0 <= s < k && Nbr(c, x, s) && t == c[x][s] + node.copies[s][d])
  {
    if k > 0 {
      TextbookIsLeast(c, node, x, d, k - 1);
      var t := Textbook(c, node, x, d, k);
      if Nbr(c, x, k - 1) && t == c[x][k - 1] + node.copies[k - 1][d] {
      } else if t != c[x][d] {
        var s :| 0 <= s < k - 1 && Nbr(c, x, s) && t == c[x][s] + node.copies[s][d];
      }
    }
  }

  /** x is not about to relax d. */
  predicate Relaxed(work: Work, d: nat) {
    work.Relaxing? ==> d < work.i
  }

  /** On any network, lossy ones included, a relaxed distance never exceeds the textbook
      value. */
  lemma NeverAboveTextbook(c: Costs, net: Net, x: nat, d: nat)
    requires Inv(c, net) && x < |c| && d < |c| && Relaxed(net.work[x], d)
    ensures NodeShape(c, x, net.nodes[x])
    ensures net.nodes[x].dv[d] <= Textbook(c, net.nodes[x], x, d, |c|)
  {
    assert NodeShape(c, x, net.nodes[x]);
    TextbookIsLeast(c, net.nodes[x], x, d, |c|);
    var t := Textbook(c, net.nodes[x], x, d, |c|);
    assert SafeAt(c, net, x, d);
    if t != c[x][d] {
      var s :| 0 <= s < |c| && Nbr(c, x, s) && t == c[x][s] + net.nodes[x].copies[s][d];
      assert TightAt(c, net, x, s, d);
    }
  }

  // ---------------------------------------------------------------- one update, exactly

  /** The distance to d is as good as the direct link or some neighbour other than s. */
  ghost predicate Elsewhere(c: Costs, node: Node, x: nat, s: nat, d: nat)
    requires Valid(c) && NodeShape(c, x, node) && x < |c| && d < |c|
  {
    node.dv[d] == c[x][d] || exists v: nat :: v != s && Nbr(c, x, v) && node.dv[d] >= c[x][v] + node.copies[v][d]
  }

  lemma UpdateValue(c: Costs, node: Node, x: nat, s: nat, vec: seq<nat>, d: nat)
    requires Valid(c) && NodeShape(c, x, node) && Nbr(c, x, s) && |vec| == |c|
    requires d < |c| && vec[d] <= INFINITE_COST
    ensures var after := HandleUpdate(node, c[x][s], s, vec).0;
            && |after.dv| == |c| && after.copies == node.copies[s := vec]
            && after.dv[d] == if node.copies[s] == vec then node.dv[d] else Min(node.dv[d], c[x][s] + vec[d])
  {
    if node.copies[s] == vec {
      assert node.copies == node.copies[s := vec];
    } else {
      RelaxedValue(Overwrite(node, s, vec), c[x][s], s, d);
    }
  }

  lemma RelaxedValue(node: Node, link: nat, s: nat, d: nat)
    requires Holds(node, s, |node.dv|) && d < |node.dv| && link + node.copies[s][d] < WORD32
    ensures RelaxUpTo(node, link, s, |node.dv|).dv[d] == Min(node.dv[d], link + node.copies[s][d])
  {
    RelaxUpToIsPointwise(node, link, s, |node.dv|);
  }

  lemma {:induction false} RelaxationsKeepShape(c: Costs, node: Node, x: nat, s: nat, k: nat)
    requires NodeShape(c, x, node) && Nbr(c, x, s) && k <= |c|
    ensures NodeShape(c, x, RelaxUpTo(node, c[x][s], s, k))
  {
    if k > 0 {
      RelaxationsKeepShape(c, node, x, s, k - 1);
    }
  }

  lemma UpdateKeepsShape(c: Costs, node: Node, x: nat, s: nat, vec: seq<nat>)
    requires NodeShape(c, x, node) && Nbr(c, x, s) && |vec| == |c|
    ensures NodeShape(c, x, HandleUpdate(node, c[x][s], s, vec).0)
  {
    if node.copies[s] != vec {
      RelaxationsKeepShape(c, Overwrite(node, s, vec), x, s, |c|);
    }
  }

  /** Exactly when handling an update leaves the textbook value: if the vector just heard
      gives no more than the distance held, or the distance is as good elsewhere. */
  lemma UpdateMeetsTextbook(c: Costs, node: Node, x: nat, s: nat, vec: seq<nat>, d: nat)
    requires Valid(c) && NodeShape(c, x, node) && Nbr(c, x, s) && |vec| == |c|
    requires d < |c| && vec[d] <= INFINITE_COST
    requires node.dv[d] <= Textbook(c, node, x, d, |c|)
    ensures var after := HandleUpdate(node, c[x][s], s, vec).0;
            && NodeShape(c, x, after)
            && (after.dv[d] == Textbook(c, after, x, d, |c|) <==>
                  c[x][s] + vec[d] <= node.dv[d] || Elsewhere(c, node, x, s, d))
  {
    UpdateKeepsShape(c, node, x, s, vec);
    UpdateValue(c, node, x, s, vec, d);
    var after := HandleUpdate(node, c[x][s], s, vec).0;
    TextbookIsLeast(c, node, x, d, |c|);
    TextbookIsLeast(c, after, x, d, |c|);
    if Elsewhere(c, node, x, s, d) && node.dv[d] != c[x][d] {
      var v: nat :| v != s && Nbr(c, x, v) && node.dv[d] >= c[x][v] + node.copies[v][d];
      assert after.copies[v] == node.copies[v];
    }
    var t := Textbook(c, after, x, d, |c|);
    if t != c[x][d] {
      var v :| 0 <= v < |c| && Nbr(c, x, v) && t == c[x][v] + after.copies[v][d];
      assert v != s ==> after.copies[v] == node.copies[v];
    }
  }

  /** From a node at the textbook value, an update keeps it there if and only if the new
      vector is no worse than the copy it replaces, or the distance is as good elsewhere.
      Only a vector older than the one it replaces can be worse. */
  lemma UpdateKeepsTextbook(c: Costs, node: Node, x: nat, s: nat, vec: seq<nat>, d: nat)
    requires Valid(c) && NodeShape(c, x, node) && Nbr(c, x, s) && |vec| == |c|
    requires d < |c| && vec[d] <= INFINITE_COST
    requires node.dv[d] == Textbook(c, node, x, d, |c|)
    ensures var after := HandleUpdate(node, c[x][s], s, vec).0;
            && NodeShape(c, x, after)
            && (after.dv[d] == Textbook(c, after, x, d, |c|) <==>
                  vec[d] <= node.copies[s][d] || Elsewhere(c, node, x, s, d))
  {
    UpdateMeetsTextbook(c, node, x, s, vec, d);
    TextbookIsLeast(c, node, x, d, |c|);
  }

  /** The exact condition in every reachable state, for every update an idle node may be
      handed next. */
  lemma NextUpdateMeetsTextbook(c: Costs, run: seq<Net>, k: nat, x: nat, s: nat, vec: seq<nat>, d: nat)
    requires Run(c, run) && k < |run| && Shape(c, run[k])
    requires Enabled(c, run[k], Deliver(x, Update(s, vec))) && d < |c|
    ensures |vec| == |c| && NodeShape(c, x, run[k].nodes[x])
    ensures var t := Handled(c, run[k], x, s, vec);
            && Reaches(c, run[k], t) && NodeShape(c, x, t.nodes[x])
            && (t.nodes[x].dv[d] == Textbook(c, t.nodes[x], x, d, |c|) <==>
                  c[x][s] + vec[d] <= run[k].nodes[x].dv[d] || Elsewhere(c, run[k].nodes[x], x, s, d))
  {
    RunKeeps(c, run, k);
    assert Update(s, vec) in run[k].sent && Old(run[k], s, vec);
    UpdateRefines(c, run[k], x, s, vec);
    NeverAboveTextbook(c, run[k], x, d);
    UpdateMeetsTextbook(c, run[k].nodes[x], x, s, vec, d);
  }

  // ---------------------------------------------------------------- how they come apart

  lemma Announced(c: Costs, start: Net, net: Net, x: nat)
    requires Reaches(c, start, net) && Inv(c, net) && x < |c|
    ensures var t := net.(sent := net.sent + {Update(x, net.nodes[x].dv)}); Reaches(c, start, t) && Inv(c, t)
  {
    var e := Broadcast(x, net.nodes[x].dv);
    assert NodeShape(c, x, net.nodes[x]);
    assert forall i :: 0 <= i < |c| ==> Said(net, x, i, net.nodes[x].dv[i]);
    ReachesEvent(c, start, net, e);
  }

  lemma HandledAfter(c: Costs, start: Net, net: Net, x: nat, s: nat, vec: seq<nat>)
    requires Reaches(c, start, net) && Inv(c, net) && Enabled(c, net, Deliver(x, Update(s, vec)))
    ensures |vec| == |c| && NodeShape(c, x, net.nodes[x]) && (forall d :: 0 <= d < |c| ==> vec[d] <= INFINITE_COST)
    ensures var t := Handled(c, net, x, s, vec); Reaches(c, start, t) && Inv(c, t) && NodeShape(c, x, t.nodes[x])
  {
    assert Update(s, vec) in net.sent && Old(net, s, vec);
    UpdateRefines(c, net, x, s, vec);
    ReachesOn(c, start, net, Handled(c, net, x, s, vec));
  }

  /** s announces itself, hears from v, and announces itself again. */
  lemma AnnouncedTwice(c: Costs, net: Net, s: nat, v: nat) returns (t: Net)
    requires Inv(c, net) && Nbr(c, s, v) && net.work[s].Idle?
    requires NodeShape(c, s, net.nodes[s]) && net.nodes[s].copies[v] != net.nodes[v].dv
    ensures Reaches(c, net, t) && Inv(c, t) && t.work == net.work
    ensures forall x :: 0 <= x < |c| && x != s ==> t.nodes[x] == net.nodes[x]
    ensures Update(s, net.nodes[s].dv) in t.sent && Update(s, t.nodes[s].dv) in t.sent
    ensures t.nodes[s].dv == HandleUpdate(net.nodes[s], c[s][v], v, net.nodes[v].dv).0.dv
  {
    var vec := net.nodes[v].dv;
    ReachesSelf(c, net);
    Announced(c, net, net, s);
    var a := net.(sent := net.sent + {Update(s, net.nodes[s].dv)});
    Announced(c, net, a, v);
    var b := a.(sent := a.sent + {Update(v, vec)});
    HandledAfter(c, net, b, s, v, vec);
    var h := Handled(c, b, s, v, vec);
    Announced(c, net, h, s);
    t := h.(sent := h.sent + {Update(s, h.nodes[s].dv)});
  }

  /** A node that hears a better vector and then a stale, worse one of the same neighbour,
      with nothing as good elsewhere, ends up below the rule. */
  lemma StaleUndercuts(c: Costs, node: Node, x: nat, s: nat, better: seq<nat>, stale: seq<nat>, d: nat)
    requires Valid(c) && NodeShape(c, x, node) && Nbr(c, x, s) && |better| == |stale| == |c|
    requires d < |c| && better[d] < stale[d] <= INFINITE_COST && better != node.copies[s]
    requires c[x][s] + better[d] < node.dv[d] <= c[x][d]
    requires forall v: nat :: v != s && Nbr(c, x, v) ==> c[x][s] + better[d] < c[x][v] + node.copies[v][d]
    ensures var a := HandleUpdate(node, c[x][s], s, better).0;
            NodeShape(c, x, a) &&
            var b := HandleUpdate(a, c[x][s], s, stale).0;
            NodeShape(c, x, b) && b.dv[d] == c[x][s] + better[d] < Textbook(c, b, x, d, |c|)
  {
    var a := HandleUpdate(node, c[x][s], s, better).0;
    UpdateKeepsShape(c, node, x, s, better);
    UpdateValue(c, node, x, s, better, d);
    var b := HandleUpdate(a, c[x][s], s, stale).0;
    UpdateKeepsShape(c, a, x, s, stale);
    UpdateValue(c, a, x, s, stale, d);
    TextbookIsLeast(c, b, x, d, |c|);
  }

  /** Four nodes in a row. */
  const LINE: Costs := [[0, 1, 999, 999], [1, 0, 1, 999], [999, 1, 0, 1], [999, 999, 1, 0]]

  lemma LineIsValid()
    ensures Valid(LINE) && |LINE| == 4 && Nbr(LINE, 0, 1) && Nbr(LINE, 1, 2)
    ensures forall v :: v != 1 ==> !Nbr(LINE, 0, v)
    ensures LINE[0][1] == 1 && LINE[0][3] == 999 && LINE[1][2] == 1 && LINE[1][3] == 999 && LINE[2][3] == 1
  {
  }

  lemma Starts(c: Costs, s: nat, v: nat)
    requires Valid(c) && Nbr(c, s, v)
    ensures Inv(c, Init(c)) && forall x :: 0 <= x < |c| ==> Init(c).nodes[x] == InitNode(c, x) && Init(c).work[x].Idle?
    ensures NodeShape(c, s, InitNode(c, s)) && InitNode(c, s).copies[v] != InitNode(c, v).dv
  {
    InitHolds(c);
    InitShape(c);
    assert NodeShape(c, s, Init(c).nodes[s]);
    assert InitNode(c, s).copies[v][v] != InitNode(c, v).dv[v];
  }

  lemma LineStarts()
    ensures Valid(LINE) && Inv(LINE, Init(LINE)) && |LINE| == 4
    ensures var net := Init(LINE);
            && (forall x :: 0 <= x < 4 ==> net.nodes[x] == InitNode(LINE, x) && net.work[x].Idle?)
            && NodeShape(LINE, 1, net.nodes[1]) && net.nodes[1].copies[2] != net.nodes[2].dv
  {
    LineIsValid();
    Starts(LINE, 1, 2);
  }

  /** The vectors that node 1 sends on the line, before and after it has heard from node 2,
      undercut the rule at node 0. */
  lemma LineUndercuts()
    ensures Valid(LINE) && |LINE| == 4 && Nbr(LINE, 1, 2) && Nbr(LINE, 0, 1)
    ensures NodeShape(LINE, 0, InitNode(LINE, 0)) && NodeShape(LINE, 1, InitNode(LINE, 1))
    ensures var better := HandleUpdate(InitNode(LINE, 1), 1, 2, LINE[2]).0.dv;
            |better| == 4 &&
            var a := HandleUpdate(InitNode(LINE, 0), 1, 1, better).0;
            NodeShape(LINE, 0, a) &&
            var b := HandleUpdate(a, 1, 1, LINE[1]).0;
            NodeShape(LINE, 0, b) && b.dv[3] == 3 < Textbook(LINE, b, 0, 3, 4)
  {
    LineIsValid();
    LineStarts();
    var net := Init(LINE);
    assert NodeShape(LINE, 0, net.nodes[0]);
    UpdateValue(LINE, net.nodes[1], 1, 2, LINE[2], 3);
    UpdateValue(LINE, net.nodes[1], 1, 2, LINE[2], 1);
    var better := HandleUpdate(net.nodes[1], 1, 2, LINE[2]).0.dv;
    assert better[3] == 2 && better[1] == 0;
    assert net.nodes[0].copies[1][1] == 999;
    StaleUndercuts(LINE, net.nodes[0], 0, 1, better, LINE[1], 3);
  }

  /** Reordering undercuts the rule: on the line, node 0 hears the better vector of node 1
      and then its first one. Its distance to node 3 stays at the true 3 while the full
      recomputation over its copies is no longer that good. */
  lemma ReorderingUndercuts() returns (run: seq<Net>)
    ensures Valid(LINE) && |LINE| == 4 && Run(LINE, run)
    ensures var net := run[|run| - 1];
            && |net.nodes| == |net.work| == 4 && net.work[0].Idle? && NodeShape(LINE, 0, net.nodes[0])
            && net.nodes[0].dv[3] == 3 < Textbook(LINE, net.nodes[0], 0, 3, 4)
  {
    LineIsValid();
    LineStarts();
    LineUndercuts();
    var start := Init(LINE);
    var net := AnnouncedTwice(LINE, start, 1, 2);
    var better := net.nodes[1].dv;
    HandledAfter(LINE, start, net, 0, 1, better);
    var a := Handled(LINE, net, 0, 1, better);
    HandledAfter(LINE, start, a, 0, 1, LINE[1]);
    run := ReachedByRun(LINE, Handled(LINE, a, 0, 1, LINE[1]));
  }
}
