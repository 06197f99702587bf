/** Over reliable first-in-first-out links: the incremental minimum is the textbook rule,
    broadcasts triggered by updates die out within a stated number of steps, and the silence
    that follows is at shortest paths. The daemon may announce at any moment. */
module RoutingQuiescence {
  import opened Sums
  import opened Topology
  import opened DistanceVector
  import opened RoutingNet
  import opened RoutingTheorems
  import opened RoutingFifo
  import opened RoutingTextbook
  import opened RoutingSettles

  // ---------------------------------------------------------------- the invariant

  /** log is what a node with present vector dv has broadcast, oldest first. */
  ghost predicate Journal(log: seq<seq<nat>>, dv: seq<nat>) {
    && (forall i, j :: 0 <= i <= j < |log| ==> Below(log[j], log[i]))
    && (forall i :: 0 <= i < |log| ==> Below(dv, log[i]))
    && (log != [] ==> log[|log| - 1] == dv)
  }

  lemma JournalAppend(log: seq<seq<nat>>, dv: seq<nat>, dv': seq<nat>)
    requires Journal(log, dv) && Below(dv', dv)
    ensures Journal(log + [dv'], dv')
  {
    var more := log + [dv'];
    forall i | 0 <= i < |log| ensures Below(dv', log[i]) {
      assert Below(dv, log[i]);
    }
    forall i, j | 0 <= i <= j < |more| ensures Below(more[j], more[i]) {
      if j < |log| {
        assert Below(log[j], log[i]);
      }
    }
  }

  ghost predicate CopyAt(c: Costs, f: Fifo, x: nat, s: nat)
    requires FShape(c, f) && Nbr(c, x, s)
  {
    assert NodeShape(c, x, f.nodes[x]);
    f.nodes[x].copies[s] == if f.pos[x][s] == 0 then Unreached(|c|) else f.log[s][f.pos[x][s] - 1]
  }

  ghost predicate Copies(c: Costs, f: Fifo)
    requires FShape(c, f)
  {
    forall x: nat, s: nat :: Nbr(c, x, s) ==> CopyAt(c, f, x, s)
  }

  /** The distance of x to d is no better than its first link or some present copy. */
  ghost predicate Backed(c: Costs, node: Node, x: nat, d: nat)
    requires NodeShape(c, x, node) && Valid(c) && x < |c| && d < |c|
  {
    node.dv[d] == c[x][d] || exists s: nat :: Nbr(c, x, s) && node.dv[d] >= c[x][s] + node.copies[s][d]
  }

  ghost predicate AllBacked(c: Costs, f: Fifo)
    requires FShape(c, f)
  {
    forall x, d :: 0 <= x < |c| && 0 <= d < |c| ==> Backed(c, f.nodes[x], x, d)
  }

  ghost predicate Journals(c: Costs, f: Fifo)
    requires FShape(c, f)
  {
    forall s :: 0 <= s < |c| ==> Journal(f.log[s], f.nodes[s].dv)
  }

  ghost predicate FInv(c: Costs, f: Fifo) {
    FShape(c, f) && Inv(c, Abs(f)) && Journals(c, f) && Copies(c, f) && AllBacked(c, f)
  }

  lemma StartHolds(c: Costs)
    requires Valid(c)
    ensures FInv(c, Start(c))
  {
    InitHolds(c);
    StartRefines(c);
    StartIsBacked(c);
  }

  lemma StartIsBacked(c: Costs)
    requires Valid(c)
    ensures FShape(c, Start(c)) && Copies(c, Start(c)) && AllBacked(c, Start(c))
  {
    var f := Start(c);
    InitShape(c);
    assert FShape(c, f);
    forall x: nat, s: nat | Nbr(c, x, s) ensures CopyAt(c, f, x, s) {
      assert f.nodes[x] == InitNode(c, x);
    }
    forall x, d | 0 <= x < |c| && 0 <= d < |c| ensures Backed(c, f.nodes[x], x, d) {
      assert f.nodes[x] == InitNode(c, x);
    }
  }

  // ---------------------------------------------------------------- one step

  /** Broadcasting while relaxing: the vector falls, the journal goes on, and a broadcast
      is paid for by a fall of the total. */
  lemma NextIsJournalled(c: Costs, f: Fifo, e: Action)
    requires FShape(c, f) && May(c, f, e) && e.Next? && Journal(f.log[e.x], f.nodes[e.x].dv)
    ensures var x, g := e.x, Do(c, f, e);
            && Below(g.nodes[x].dv, f.nodes[x].dv) && Journal(g.log[x], g.nodes[x].dv)
            && |g.log[x]| + Sum(g.nodes[x].dv) <= |f.log[x]| + Sum(f.nodes[x].dv)
  {
    var x, g := e.x, Do(c, f, e);
    assert NodeShape(c, x, f.nodes[x]) && WorkShape(c, x, f.work[x]);
    SumIsMonotone(g.nodes[x].dv, f.nodes[x].dv);
    if g.nodes[x].dv == f.nodes[x].dv {
      assert g.log[x] == f.log[x];
    } else {
      JournalAppend(f.log[x], f.nodes[x].dv, g.nodes[x].dv);
    }
  }

  lemma DoKeepsJournals(c: Costs, f: Fifo, e: Action)
    requires FShape(c, f) && May(c, f, e) && Journals(c, f) && FShape(c, Do(c, f, e))
    ensures Journals(c, Do(c, f, e))
  {
    var x, g := e.x, Do(c, f, e);
    assert Journal(g.log[x], g.nodes[x].dv) by {
      assert Journal(f.log[x], f.nodes[x].dv);
      if e.Next? {
        NextIsJournalled(c, f, e);
      } else if e.Announce? {
        JournalAppend(f.log[x], f.nodes[x].dv, f.nodes[x].dv);
      }
    }
    forall s | 0 <= s < |c| ensures Journal(g.log[s], g.nodes[s].dv) {
      assert Journal(f.log[s], f.nodes[s].dv);
    }
  }

  lemma DoKeepsCopy(c: Costs, f: Fifo, e: Action, y: nat, v: nat)
    requires FShape(c, f) && May(c, f, e) && FShape(c, Do(c, f, e)) && Nbr(c, y, v) && CopyAt(c, f, y, v)
    ensures CopyAt(c, Do(c, f, e), y, v)
  {
    assert NodeShape(c, y, f.nodes[y]);
    assert f.log[v] <= Do(c, f, e).log[v];
  }

  lemma DoKeepsCopies(c: Costs, f: Fifo, e: Action)
    requires FShape(c, f) && May(c, f, e) && Copies(c, f) && FShape(c, Do(c, f, e))
    ensures Copies(c, Do(c, f, e))
  {
    forall y: nat, v: nat | Nbr(c, y, v) ensures CopyAt(c, Do(c, f, e), y, v) {
      DoKeepsCopy(c, f, e, y, v);
    }
  }

  /** In order of sending, the next vector is nowhere above the copy it replaces. */
  lemma NextVectorIsNewer(c: Costs, f: Fifo, x: nat, s: nat)
    requires FInv(c, f) && May(c, f, Hear(x, s))
    ensures s in f.nodes[x].copies && Below(f.log[s][f.pos[x][s]], f.nodes[x].copies[s])
  {
    var vec := f.log[s][f.pos[x][s]];
    assert NodeShape(c, x, f.nodes[x]);
    assert CopyAt(c, f, x, s);
    assert Journal(f.log[s], f.nodes[s].dv);
    if f.pos[x][s] > 0 {
      assert Below(vec, f.log[s][f.pos[x][s] - 1]);
    } else {
      assert Update(s, vec) in Abs(f).sent;
      assert Old(Abs(f), s, vec);
    }
  }

  /** So hearing it backs whatever was backed before. */
  lemma HeardIsBacked(c: Costs, node: Node, x: nat, s: nat, vec: seq<nat>, d: nat)
    requires Valid(c) && NodeShape(c, x, node) && Nbr(c, x, s) && d < |c| && Backed(c, node, x, d)
    requires Below(vec, node.copies[s])
    ensures NodeShape(c, x, Overwrite(node, s, vec)) && Backed(c, Overwrite(node, s, vec), x, d)
  {
    if node.dv[d] != c[x][d] {
      var v: nat :| Nbr(c, x, v) && node.dv[d] >= c[x][v] + node.copies[v][d];
      assert Overwrite(node, s, vec).copies[v][d] <= node.copies[v][d];
    }
  }

  /** A distance that falls is backed by the copy it falls to. */
  lemma RelaxedIsBacked(c: Costs, node: Node, x: nat, s: nat, i: nat, d: nat)
    requires Valid(c) && NodeShape(c, x, node) && Nbr(c, x, s) && i < |c| && d < |c| && Backed(c, node, x, d)
    requires node.copies[s][i] <= INFINITE_COST
    ensures var after := RelaxEntry(node, c[x][s], s, i); NodeShape(c, x, after) && Backed(c, after, x, d)
  {
    var after := RelaxEntry(node, c[x][s], s, i);
    assert after.copies == node.copies;
    if node.dv[d] != c[x][d] && after.dv[d] == node.dv[d] {
      var v: nat :| Nbr(c, x, v) && node.dv[d] >= c[x][v] + node.copies[v][d];
    }
  }

  lemma DoKeepsBacking(c: Costs, f: Fifo, e: Action, d: nat)
    requires FInv(c, f) && May(c, f, e) && d < |c| && FShape(c, Do(c, f, e))
    ensures Backed(c, Do(c, f, e).nodes[e.x], e.x, d)
  {
    var x, node := e.x, f.nodes[e.x];
    assert NodeShape(c, x, node) && WorkShape(c, x, f.work[x]) && Backed(c, node, x, d);
    match e
    case Hear(_, s) =>
      NextVectorIsNewer(c, f, x, s);
      HeardIsBacked(c, node, x, s, f.log[s][f.pos[x][s]], d);
    case Next(_) =>
      var Relaxing(s, i) := f.work[x];
      assert Old(Abs(f), s, Abs(f).nodes[x].copies[s]);
      RelaxedIsBacked(c, node, x, s, i, d);
    case Announce(_) =>
  }

  lemma DoKeeps(c: Costs, f: Fifo, e: Action)
    requires FInv(c, f) && May(c, f, e)
    ensures FInv(c, Do(c, f, e))
  {
    DoRefines(c, f, e);
    StepKeeps(c, Abs(f), Abs(Do(c, f, e)));
    DoKeepsShape(c, f, e);
    DoKeepsJournals(c, f, e);
    DoKeepsCopies(c, f, e);
    var g := Do(c, f, e);
    forall y, d | 0 <= y < |c| && 0 <= d < |c| ensures Backed(c, g.nodes[y], y, d) {
      assert Backed(c, f.nodes[y], y, d);
      if y == e.x {
        DoKeepsBacking(c, f, e, d);
      }
    }
  }

  lemma FifoStepKeeps(c: Costs, f: Fifo, g: Fifo)
    requires FInv(c, f) && FifoStep(c, f, g)
    ensures FInv(c, g)
  {
    var e :| May(c, f, e) && g == Do(c, f, e);
    DoKeeps(c, f, e);
  }

  lemma RunIsSteps(c: Costs, run: seq<Fifo>, k: nat, f: Fifo, g: Fifo)
    requires FifoRun(c, run) && k + 1 < |run| && f == run[k] && g == run[k + 1]
    ensures FifoStep(c, f, g)
  {
    assert FifoStepAt(c, run, k);
  }

  lemma {:induction false} FifoRunKeeps(c: Costs, run: seq<Fifo>, k: nat)
    requires FifoRun(c, run) && k < |run|
    ensures FInv(c, run[k])
  {
    if k == 0 {
      StartHolds(c);
    } else {
      FifoRunKeeps(c, run, k - 1);
      RunIsSteps(c, run, k - 1, run[k - 1], run[k]);
      FifoStepKeeps(c, run[k - 1], run[k]);
    }
  }

  // ---------------------------------------------------------------- the textbook rule

  lemma BackedIsAboveTextbook(c: Costs, node: Node, x: nat, d: nat)
    requires Valid(c) && NodeShape(c, x, node) && x < |c| && d < |c| && Backed(c, node, x, d)
    ensures node.dv[d] >= Textbook(c, node, x, d, |c|)
  {
    TextbookIsLeast(c, node, x, d, |c|);
  }

  /** At a destination still to be relaxed, the node is at the textbook value unless the
      relaxation is about to lower it. */
  lemma UnrelaxedIsTextbook(c: Costs, net: Net, x: nat, d: nat)
    requires Inv(c, net) && x < |c| && d < |c| && !Relaxed(net.work[x], d)
    requires NodeShape(c, x, net.nodes[x]) && Backed(c, net.nodes[x], x, d)
    ensures Nbr(c, x, net.work[x].src)
    ensures var node, s := net.nodes[x], net.work[x].src;
            node.dv[d] == Textbook(c, node, x, d, |c|) <==> node.dv[d] <= c[x][s] + node.copies[s][d]
  {
    var node := net.nodes[x];
    assert WorkShape(c, x, net.work[x]);
    assert SafeAt(c, net, x, d);
    forall v: nat | v != net.work[x].src && Nbr(c, x, v) ensures node.dv[d] <= c[x][v] + node.copies[v][d] {
      assert TightAt(c, net, x, v, d);
    }
    BackedMeetsTextbook(c, node, x, net.work[x].src, d);
  }

  lemma BackedMeetsTextbook(c: Costs, node: Node, x: nat, s: nat, d: nat)
    requires Valid(c) && NodeShape(c, x, node) && Nbr(c, x, s) && d < |c| && Backed(c, node, x, d)
    requires node.dv[d] <= c[x][d]
    requires forall v: nat :: v != s && Nbr(c, x, v) ==> node.dv[d] <= c[x][v] + node.copies[v][d]
    ensures node.dv[d] == Textbook(c, node, x, d, |c|) <==> node.dv[d] <= c[x][s] + node.copies[s][d]
  {
    TextbookIsLeast(c, node, x, d, |c|);
    BackedIsAboveTextbook(c, node, x, d);
  }

  /** Over first-in-first-out links the incremental minimum is the full recomputation, in
      every reachable state: never below it, equal to it once relaxed, and before that
      equal to it exactly when the relaxation has nothing to lower. */
  lemma IncrementalIsTextbook(c: Costs, run: seq<Fifo>, k: nat, x: nat, d: nat)
    requires FifoRun(c, run) && k < |run| && x < |c| && d < |c|
    ensures FShape(c, run[k]) && NodeShape(c, x, run[k].nodes[x]) && WorkShape(c, x, run[k].work[x])
    ensures var node, work := run[k].nodes[x], run[k].work[x];
            var t := Textbook(c, node, x, d, |c|);
            && node.dv[d] >= t
            && (Relaxed(work, d) ==> node.dv[d] == t)
            && (!Relaxed(work, d) ==>
                  && Nbr(c, x, work.src)
                  && (node.dv[d] == t <==> node.dv[d] <= c[x][work.src] + node.copies[work.src][d]))
  {
    FifoRunKeeps(c, run, k);
    BackedIsAboveTextbook(c, run[k].nodes[x], x, d);
    if Relaxed(run[k].work[x], d) {
      NeverAboveTextbook(c, Abs(run[k]), x, d);
    } else {
      UnrelaxedIsTextbook(c, Abs(run[k]), x, d);
    }
  }

  // ---------------------------------------------------------------- silence

  function Row(f: Fifo, x: nat): seq<nat>
    requires x < |f.pos| && |f.pos[x]| == |f.log| == |f.nodes|
    requires forall s :: 0 <= s < |f.log| ==> f.pos[x][s] <= |f.log[s]|
  {
    seq(|f.log|, s requires 0 <= s < |f.log| => |f.log[s]| - f.pos[x][s] + Sum(f.nodes[s].dv))
  }

  function Rows(c: Costs, f: Fifo): (r: seq<nat>)
    requires |f.pos| == |f.log| == |f.nodes| == |c|
    requires forall x :: 0 <= x < |c| ==> |f.pos[x]| == |c|
    requires forall x, s :: 0 <= x < |c| && 0 <= s < |c| ==> f.pos[x][s] <= |f.log[s]|
    ensures |r| == |c| && forall x :: 0 <= x < |c| ==> r[x] == Sum(Row(f, x))
  {
    seq(|c|, x requires 0 <= x < |c| => Sum(Row(f, x)))
  }

  /** Deliveries that updates alone can still cause: per ordered pair, what is in flight
      plus what the sender's distances may yet fall by. */
  ghost function Potential(c: Costs, f: Fifo): nat
    requires FShape(c, f)
  {
    Sum(Rows(c, f))
  }

  /** Steps that updates alone can still cause: each delivery may start a round of
      relaxations, and some are left over. */
  ghost function Effort(c: Costs, f: Fifo): nat
    requires FShape(c, f)
  {
    (|c| + 1) * Potential(c, f) + Sum(Undones(c, f.work))
  }

  lemma HearLowersRow(c: Costs, f: Fifo, e: Action, y: nat)
    requires FShape(c, f) && May(c, f, e) && e.Hear? && FShape(c, Do(c, f, e)) && y < |c|
    ensures Below(Row(Do(c, f, e), y), Row(f, y))
    ensures y == e.x ==> Row(Do(c, f, e), y) != Row(f, y)
  {
    var g := Do(c, f, e);
    assert forall s :: 0 <= s < |c| ==> g.nodes[s].dv == f.nodes[s].dv;
    assert y == e.x ==> Row(g, y)[e.s] < Row(f, y)[e.s];
  }

  lemma NextLowersRow(c: Costs, f: Fifo, e: Action, y: nat)
    requires FShape(c, f) && May(c, f, e) && e.Next? && FShape(c, Do(c, f, e)) && Journals(c, f) && y < |c|
    ensures Below(Row(Do(c, f, e), y), Row(f, y))
  {
    assert Journal(f.log[e.x], f.nodes[e.x].dv);
    NextIsJournalled(c, f, e);
  }

  lemma StepLowersRow(c: Costs, f: Fifo, e: Action, y: nat)
    requires FShape(c, f) && May(c, f, e) && !e.Announce? && FShape(c, Do(c, f, e)) && Journals(c, f) && y < |c|
    ensures Sum(Row(Do(c, f, e), y)) <= Sum(Row(f, y))
    ensures e.Hear? && y == e.x ==> Sum(Row(Do(c, f, e), y)) < Sum(Row(f, y))
  {
    if e.Next? {
      NextLowersRow(c, f, e, y);
    } else {
      HearLowersRow(c, f, e, y);
    }
    SumIsMonotone(Row(Do(c, f, e), y), Row(f, y));
  }

  lemma StepLowersPotential(c: Costs, f: Fifo, e: Action)
    requires FShape(c, f) && May(c, f, e) && !e.Announce? && FShape(c, Do(c, f, e)) && Journals(c, f)
    ensures Potential(c, Do(c, f, e)) <= Potential(c, f)
    ensures e.Hear? ==> Potential(c, Do(c, f, e)) < Potential(c, f)
  {
    var g := Do(c, f, e);
    forall y | 0 <= y < |c|
      ensures Rows(c, g)[y] <= Rows(c, f)[y] && (e.Hear? && y == e.x ==> Rows(c, g)[y] < Rows(c, f)[y])
    {
      StepLowersRow(c, f, e, y);
    }
    assert e.Hear? ==> Rows(c, g)[e.x] < Rows(c, f)[e.x];
    SumIsMonotone(Rows(c, g), Rows(c, f));
  }

  lemma StepLeaves(c: Costs, f: Fifo, e: Action)
    requires FShape(c, f) && May(c, f, e) && !e.Announce? && FShape(c, Do(c, f, e))
    ensures var before, after := Sum(Undones(c, f.work)), Sum(Undones(c, Do(c, f, e).work));
            if e.Hear? then after <= before + |c| else after < before
  {
    var x, g := e.x, Do(c, f, e);
    assert WorkShape(c, x, f.work[x]);
    SumUpdate(Undones(c, f.work), x, Undone(c, g.work[x]));
    assert Undones(c, g.work) == Undones(c, f.work)[x := Undone(c, g.work[x])];
  }

  lemma Spends(n: nat, p: nat, p': nat, l: nat, l': nat)
    requires (p' < p && l' <= l + n) || (p' <= p && l' < l)
    ensures (n + 1) * p' + l' < (n + 1) * p + l
  {
    if p' < p {
      assert (n + 1) * p' <= (n + 1) * (p - 1) == (n + 1) * p - (n + 1);
    } else {
      assert (n + 1) * p' == (n + 1) * p;
    }
  }

  lemma DoSpendsEffort(c: Costs, f: Fifo, e: Action)
    requires FShape(c, f) && May(c, f, e) && !e.Announce? && FShape(c, Do(c, f, e)) && Journals(c, f)
    ensures Effort(c, Do(c, f, e)) < Effort(c, f)
  {
    var g := Do(c, f, e);
    StepLowersPotential(c, f, e);
    StepLeaves(c, f, e);
    Spends(|c|, Potential(c, f), Potential(c, g), Sum(Undones(c, f.work)), Sum(Undones(c, g.work)));
  }

  /** Hearing and relaxing both spend effort; only the daemon puts any in. */
  lemma StepSpendsEffort(c: Costs, f: Fifo, g: Fifo)
    requires FInv(c, f) && UpdateStep(c, f, g)
    ensures FInv(c, g) && Effort(c, g) < Effort(c, f)
  {
    var e :| May(c, f, e) && !e.Announce? && g == Do(c, f, e);
    DoKeeps(c, f, e);
    DoSpendsEffort(c, f, e);
  }

  /** Without the daemon's announcements, deliveries and relaxations come to an end however
      they interleave: their number is bounded by the effort they start from. */
  lemma {:induction false} UpdatesDieOut(c: Costs, run: seq<Fifo>)
    requires |run| > 0 && FInv(c, run[0])
    requires forall k {:trigger run[k]} :: 0 < k < |run| ==> UpdateStep(c, run[k - 1], run[k])
    ensures |run| - 1 <= Effort(c, run[0])
    decreases |run|
  {
    if |run| > 1 {
      assert UpdateStep(c, run[0], run[1]);
      StepSpendsEffort(c, run[0], run[1]);
      var rest := run[1..];
      forall k {:trigger rest[k]} | 0 < k < |rest| ensures UpdateStep(c, rest[k - 1], rest[k]) {
        assert UpdateStep(c, run[k], run[k + 1]);
      }
      UpdatesDieOut(c, rest);
    }
  }

  lemma PotentialIsBounded(c: Costs, f: Fifo, most: nat)
    requires FInv(c, f) && forall s :: 0 <= s < |c| ==> |f.log[s]| <= most
    ensures Potential(c, f) <= |c| * (|c| * (most + |c| * INFINITE_COST))
  {
    var cell := most + |c| * INFINITE_COST;
    forall x | 0 <= x < |c| ensures Rows(c, f)[x] <= |c| * cell {
      forall s | 0 <= s < |c| ensures Row(f, x)[s] <= cell {
        forall d | 0 <= d < |c| ensures f.nodes[s].dv[d] <= INFINITE_COST {
          assert SafeAt(c, Abs(f), s, d);
        }
        SumIsBounded(f.nodes[s].dv, INFINITE_COST);
      }
      SumIsBounded(Row(f, x), cell);
    }
    SumIsBounded(Rows(c, f), |c| * cell);
  }

  lemma MoreOfMore(n: nat, a: nat, b: nat)
    requires a <= b
    ensures n * a <= n * b
  {
  }

  lemma EffortIsBounded(c: Costs, f: Fifo, most: nat)
    requires FInv(c, f) && forall s :: 0 <= s < |c| ==> |f.log[s]| <= most
    ensures Effort(c, f) <= (|c| + 1) * (|c| * (|c| * (most + |c| * INFINITE_COST))) + |c| * |c|
  {
    var bound := |c| * (|c| * (most + |c| * INFINITE_COST));
    PotentialIsBounded(c, f, most);
    MoreOfMore(|c| + 1, Potential(c, f), bound);
    SumIsBounded(Undones(c, f.work), |c|);
  }

  /** Every node is idle, nothing is in flight, and every node has announced itself at
      least once. */
  ghost predicate Quiet(c: Costs, f: Fifo)
    requires FShape(c, f)
  {
    && (forall x :: 0 <= x < |c| ==> f.work[x].Idle?)
    && (forall s :: 0 <= s < |c| ==> f.log[s] != [])
    && (forall x: nat, s: nat :: Nbr(c, x, s) ==> f.pos[x][s] == |f.log[s]|)
  }

  /** The only way to be stuck, once all have announced, is to be quiet. */
  lemma StuckIsQuiet(c: Costs, f: Fifo)
    requires FShape(c, f) && forall s :: 0 <= s < |c| ==> f.log[s] != []
    ensures Quiet(c, f) <==> !exists g :: UpdateStep(c, f, g)
  {
    if Quiet(c, f) {
      forall g ensures !UpdateStep(c, f, g) {
      }
    } else if x :| 0 <= x < |c| && f.work[x].Relaxing? {
      assert May(c, f, Next(x));
      assert UpdateStep(c, f, Do(c, f, Next(x)));
    } else {
      var x: nat, s: nat :| Nbr(c, x, s) && f.pos[x][s] != |f.log[s]|;
      assert May(c, f, Hear(x, s));
      assert UpdateStep(c, f, Do(c, f, Hear(x, s)));
    }
  }

  /** Silence means shortest paths: once every node has announced itself, all are idle and
      nothing is in flight, D is the capped distance and next hops follow a cheapest walk. */
  lemma QuietIsShortest(c: Costs, run: seq<Fifo>, k: nat, x: nat, d: nat)
    requires FifoRun(c, run) && k < |run| && x < |c| && d < |c|
    requires FShape(c, run[k]) && Quiet(c, run[k])
    ensures Inv(c, Abs(run[k]))
    ensures IsDistance(c, x, d, run[k].nodes[x].dv[d])
    ensures run[k].nodes[x].dv[d] < INFINITE_COST ==>
              WalkCost(c, Route(c, Abs(run[k]), x, d)) == run[k].nodes[x].dv[d]
  {
    var f := run[k];
    FifoRunKeeps(c, run, k);
    forall y, s | 0 <= y < |c| && s in f.nodes[y].copies ensures f.nodes[y].copies[s] == f.nodes[s].dv {
      assert NodeShape(c, y, f.nodes[y]);
      assert CopyAt(c, f, y, s);
      assert Journal(f.log[s], f.nodes[s].dv);
    }
    assert Settled(c, Abs(f));
    SettledIsShortest(c, Abs(f), x, d);
  }

  // ---------------------------------------------------------------- coming to rest

  ghost predicate AllAnnounced(c: Costs, f: Fifo)
    requires FShape(c, f)
  {
    forall s :: 0 <= s < |c| ==> f.log[s] != []
  }

  lemma StepKeepsAnnounced(c: Costs, f: Fifo, e: Action)
    requires FShape(c, f) && May(c, f, e) && FShape(c, Do(c, f, e)) && AllAnnounced(c, f)
    ensures AllAnnounced(c, Do(c, f, e))
  {
  }

  ghost predicate UpdatesOnly(c: Costs, path: seq<Fifo>) {
    |path| > 0 && forall k {:trigger path[k]} :: 0 < k < |path| ==> UpdateStep(c, path[k - 1], path[k])
  }

  /** Once all have announced, handling what is in flight leads to silence. */
  lemma {:induction false} UpdatesReachQuiet(c: Costs, f: Fifo) returns (path: seq<Fifo>)
    requires FInv(c, f) && AllAnnounced(c, f)
    ensures UpdatesOnly(c, path) && path[0] == f
    ensures FShape(c, path[|path| - 1]) && Quiet(c, path[|path| - 1])
    decreases Effort(c, f)
  {
    StuckIsQuiet(c, f);
    path := [f];
    if !Quiet(c, f) {
      var g :| UpdateStep(c, f, g);
      StepSpendsEffort(c, f, g);
      var e :| May(c, f, e) && !e.Announce? && g == Do(c, f, e);
      StepKeepsAnnounced(c, f, e);
      var rest := UpdatesReachQuiet(c, g);
      path := [f] + rest;
      forall k {:trigger path[k]} | 0 < k < |path| ensures UpdateStep(c, path[k - 1], path[k]) {
        if k > 1 {
          assert UpdateStep(c, rest[k - 2], rest[k - 1]);
        }
      }
    }
  }

  lemma RunWith(c: Costs, run: seq<Fifo>, e: Action) returns (more: seq<Fifo>)
    requires FifoRun(c, run) && FShape(c, run[|run| - 1]) && May(c, run[|run| - 1], e)
    ensures FifoRun(c, more) && run <= more && more[|more| - 1] == Do(c, run[|run| - 1], e)
  {
    more := run + [Do(c, run[|run| - 1], e)];
    forall k | 0 <= k < |more| - 1 ensures FifoStepAt(c, more, k) {
      assert k < |run| - 1 ==> FifoStepAt(c, run, k);
    }
  }

  /** The daemons of nodes 0..n announce. */
  lemma {:induction false} AnnounceUpTo(c: Costs, run: seq<Fifo>, n: nat) returns (more: seq<Fifo>, f: Fifo)
    requires FifoRun(c, run) && n <= |c|
    ensures FifoRun(c, more) && run <= more && f == more[|more| - 1] && FInv(c, f)
    ensures forall s :: 0 <= s < n ==> f.log[s] != []
  {
    if n == 0 {
      more, f := run, run[|run| - 1];
      FifoRunKeeps(c, run, |run| - 1);
    } else {
      var before, b := AnnounceUpTo(c, run, n - 1);
      more := RunWith(c, before, Announce(n - 1));
      f := Do(c, b, Announce(n - 1));
      DoKeeps(c, b, Announce(n - 1));
    }
  }

  lemma RunOn(c: Costs, run: seq<Fifo>, path: seq<Fifo>) returns (more: seq<Fifo>)
    requires FifoRun(c, run) && UpdatesOnly(c, path) && path[0] == run[|run| - 1]
    ensures FifoRun(c, more) && run <= more && more[|more| - 1] == path[|path| - 1]
  {
    more := run + path[1..];
    forall k | 0 <= k < |more| - 1 ensures FifoStepAt(c, more, k) {
      if k < |run| - 1 {
        assert FifoStepAt(c, run, k);
      } else {
        assert UpdateStep(c, path[k - (|run| - 1)], path[k - (|run| - 1) + 1]);
      }
    }
  }

  /** Every run over first-in-first-out links continues to silence at shortest paths: each
      daemon announces once, and then updates alone do the rest. */
  lemma EveryFifoRunSettles(c: Costs, run: seq<Fifo>) returns (more: seq<Fifo>, f: Fifo)
    requires FifoRun(c, run)
    ensures FifoRun(c, more) && run <= more && f == more[|more| - 1]
    ensures FShape(c, f) && Quiet(c, f)
    ensures forall x, d :: 0 <= x < |c| && 0 <= d < |c| ==> IsDistance(c, x, d, f.nodes[x].dv[d])
  {
    var announced, g := AnnounceUpTo(c, run, |c|);
    var path := UpdatesReachQuiet(c, g);
    f := path[|path| - 1];
    more := RunOn(c, announced, path);
    QuietIsExact(c, more, |more| - 1, f);
  }

  lemma QuietIsExact(c: Costs, run: seq<Fifo>, k: nat, f: Fifo)
    requires FifoRun(c, run) && k < |run| && f == run[k] && FShape(c, f) && Quiet(c, f)
    ensures forall x, d :: 0 <= x < |c| && 0 <= d < |c| ==> IsDistance(c, x, d, f.nodes[x].dv[d])
  {
    forall x, d | 0 <= x < |c| && 0 <= d < |c| ensures IsDistance(c, x, d, f.nodes[x].dv[d]) {
      QuietIsShortest(c, run, k, x, d);
    }
  }
}
