/** What one node does with a route update, as pure steps: overwrite the copy of the
    sender's vector, then relax every destination in turn. */
module DistanceVector {
  import opened Basics
  import opened Topology
  import opened Sums

  /** Costs are C unsigned ints. */
  function Add32(a: nat, b: nat): nat {
    (a + b) % WORD32
  }

  /** A node's own vector, its copy of every neighbour's vector, and its next hops. */
  datatype Node = Node(dv: seq<nat>, copies: map<nat, seq<nat>>, next: map<nat, nat>)

  function Unreached(n: nat): seq<nat> {
    seq(n, _ => INFINITE_COST)
  }

  function InitNode(c: Costs, x: nat): Node
    requires x < |c|
  {
    Node(c[x],
         map s | 0 <= s < |c| && Nbr(c, x, s) :: Unreached(|c|),
         map s | 0 <= s < |c| && Nbr(c, x, s) :: s)
  }

  predicate Holds(node: Node, src: nat, n: nat) {
    |node.dv| == n && src in node.copies && |node.copies[src]| == n
  }

  function Overwrite(node: Node, src: nat, vec: seq<nat>): Node {
    node.(copies := node.copies[src := vec])
  }

  /** The update of one destination and its next hop under the two locks. */
  function RelaxEntry(node: Node, link: nat, src: nat, i: nat): Node
    requires Holds(node, src, |node.dv|) && i < |node.dv|
  {
    var candidate := Add32(link, node.copies[src][i]);
    if candidate < node.dv[i] then
      node.(dv := node.dv[i := candidate], next := node.next[i := src])
    else
      node
  }

  /** The relaxations of destinations 0..k in order. */
  function RelaxUpTo(node: Node, link: nat, src: nat, k: nat): (r: Node)
    requires Holds(node, src, |node.dv|) && k <= |node.dv|
    ensures |r.dv| == |node.dv| && r.copies == node.copies
  {
    if k == 0 then node else RelaxEntry(RelaxUpTo(node, link, src, k - 1), link, src, k - 1)
  }

  /** The vectors broadcast by those relaxations: one whenever an entry fell. */
  function RelaxBroadcasts(node: Node, link: nat, src: nat, k: nat): seq<seq<nat>>
    requires Holds(node, src, |node.dv|) && k <= |node.dv|
  {
    if k == 0 then [] else
    var before := RelaxUpTo(node, link, src, k - 1);
    var after := RelaxUpTo(node, link, src, k);
    RelaxBroadcasts(node, link, src, k - 1) + (if after.dv == before.dv then [] else [after.dv])
  }

  /** A whole route update: relaxation is skipped when the copy did not change. */
  function HandleUpdate(node: Node, link: nat, src: nat, vec: seq<nat>): (Node, seq<seq<nat>>)
    requires Holds(node, src, |node.dv|) && |vec| == |node.dv|
  {
    if node.copies[src] == vec then
      (node, [])
    else
      var heard := Overwrite(node, src, vec);
      (RelaxUpTo(heard, link, src, |node.dv|), RelaxBroadcasts(heard, link, src, |node.dv|))
  }

  /** Closed form of the relaxation loop: destinations below k are relaxed, each from
      its own entry alone, and the others are untouched. */
  lemma {:induction false} RelaxUpToIsPointwise(node: Node, link: nat, src: nat, k: nat)
    requires Holds(node, src, |node.dv|) && k <= |node.dv|
    ensures var r := RelaxUpTo(node, link, src, k);
            && (forall i :: 0 <= i < k ==>
                  && r.dv[i] == Min(node.dv[i], Add32(link, node.copies[src][i])))
            && (forall i :: k <= i < |node.dv| ==> r.dv[i] == node.dv[i])
            && (forall i :: i in r.next <==>
                  i in node.next || (0 <= i < k && Add32(link, node.copies[src][i]) < node.dv[i]))
            && (forall i :: i in r.next ==>
                  r.next[i] == if 0 <= i < k && Add32(link, node.copies[src][i]) < node.dv[i]
                               then src else node.next[i])
  {
    if k > 0 {
      RelaxUpToIsPointwise(node, link, src, k - 1);
    }
  }

  /** The destinations below k whose distance the sender's copy lowers. */
  function Lowered(node: Node, link: nat, src: nat, k: nat): set<nat>
    requires Holds(node, src, |node.dv|) && k <= |node.dv|
  {
    set i: nat | i < k && Add32(link, node.copies[src][i]) < node.dv[i]
  }

  predicate Nearer(a: seq<nat>, b: seq<nat>) {
    Below(a, b) && a != b
  }

  /** Each of vecs is nearer than the one before it, and so than all before it. */
  ghost predicate Falling(first: seq<nat>, vecs: seq<seq<nat>>) {
    && (forall i :: 0 <= i < |vecs| ==> Nearer(vecs[i], first))
    && (forall i, j :: 0 <= i < j < |vecs| ==> Nearer(vecs[j], vecs[i]))
  }

  function LastOf(first: seq<nat>, vecs: seq<seq<nat>>): seq<nat> {
    if vecs == [] then first else vecs[|vecs| - 1]
  }

  lemma NearerStill(a: seq<nat>, b: seq<nat>, c: seq<nat>)
    requires Nearer(a, b) && Nearer(b, c)
    ensures Nearer(a, c)
  {
    var i :| 0 <= i < |a| && a[i] != b[i];
    assert a[i] < c[i];
  }

  /** From first to last in n falls, each of them reported. */
  ghost predicate Reported(first: seq<nat>, vecs: seq<seq<nat>>, last: seq<nat>, n: nat) {
    Falling(first, vecs) && |vecs| == n && last == LastOf(first, vecs)
  }

  lemma ReportedOneMore(first: seq<nat>, vecs: seq<seq<nat>>, last: seq<nat>, n: nat, fell: bool, vec: seq<nat>)
    requires Reported(first, vecs, last, n) && if fell then Nearer(vec, last) else vec == last
    ensures Reported(first, vecs + if fell then [vec] else [], vec, n + if fell then 1 else 0)
  {
    if fell && vecs != [] {
      NearerStill(vec, last, first);
      forall i | 0 <= i < |vecs| - 1 ensures Nearer(vec, vecs[i]) {
        NearerStill(vec, last, vecs[i]);
      }
    }
    assert vecs + [] == vecs;
  }

  lemma LoweredOneMore(node: Node, link: nat, src: nat, k: nat)
    requires Holds(node, src, |node.dv|) && k < |node.dv|
    ensures var before, after := Lowered(node, link, src, k), Lowered(node, link, src, k + 1);
            |after| == |before| + if k in after then 1 else 0
  {
    var before, after := Lowered(node, link, src, k), Lowered(node, link, src, k + 1);
    assert after == if k in after then before + {k} else before;
  }

  lemma RelaxedOneMore(node: Node, link: nat, src: nat, k: nat)
    requires Holds(node, src, |node.dv|) && k < |node.dv|
    ensures var before, after := RelaxUpTo(node, link, src, k).dv, RelaxUpTo(node, link, src, k + 1).dv;
            var fell := k in Lowered(node, link, src, k + 1);
            && (if fell then Nearer(after, before) else after == before)
            && RelaxBroadcasts(node, link, src, k + 1) ==
               RelaxBroadcasts(node, link, src, k) + if fell then [after] else []
  {
    RelaxUpToIsPointwise(node, link, src, k);
    var before, after := RelaxUpTo(node, link, src, k).dv, RelaxUpTo(node, link, src, k + 1).dv;
    assert k in Lowered(node, link, src, k + 1) ==> after[k] < before[k];
  }

  /** After k relaxations. */
  ghost predicate ReportedSoFar(node: Node, link: nat, src: nat, k: nat)
    requires Holds(node, src, |node.dv|) && k <= |node.dv|
  {
    Reported(node.dv, RelaxBroadcasts(node, link, src, k), RelaxUpTo(node, link, src, k).dv,
             |Lowered(node, link, src, k)|)
  }

  lemma ReportedNext(node: Node, link: nat, src: nat, k: nat)
    requires Holds(node, src, |node.dv|) && k < |node.dv| && ReportedSoFar(node, link, src, k)
    ensures ReportedSoFar(node, link, src, k + 1)
  {
    RelaxedOneMore(node, link, src, k);
    LoweredOneMore(node, link, src, k);
    ReportedOneMore(node.dv, RelaxBroadcasts(node, link, src, k), RelaxUpTo(node, link, src, k).dv,
                    |Lowered(node, link, src, k)|, k in Lowered(node, link, src, k + 1),
                    RelaxUpTo(node, link, src, k + 1).dv);
  }

  lemma {:induction false} BroadcastsFall(node: Node, link: nat, src: nat, k: nat)
    requires Holds(node, src, |node.dv|) && k <= |node.dv|
    ensures ReportedSoFar(node, link, src, k)
  {
    if k > 0 {
      BroadcastsFall(node, link, src, k - 1);
      ReportedNext(node, link, src, k - 1);
    }
  }

  /** What an update makes a node broadcast, in order: one vector for each destination that
      came nearer, each below the one before it, and the last is the vector it ends with. */
  lemma UpdateReportsFalls(node: Node, link: nat, src: nat, vec: seq<nat>)
    requires Holds(node, src, |node.dv|) && |vec| == |node.dv|
    ensures var (after, outs) := HandleUpdate(node, link, src, vec);
            && Falling(node.dv, outs)
            && |after.dv| == |node.dv| && |outs| == |set i: nat | i < |after.dv| && after.dv[i] < node.dv[i]|
            && after.dv == LastOf(node.dv, outs)
  {
    if node.copies[src] != vec {
      var heard := Overwrite(node, src, vec);
      var after := HandleUpdate(node, link, src, vec).0;
      BroadcastsFall(heard, link, src, |node.dv|);
      RelaxUpToIsPointwise(heard, link, src, |node.dv|);
      assert Lowered(heard, link, src, |node.dv|) == set i: nat | i < |after.dv| && after.dv[i] < node.dv[i];
    }
  }
}
