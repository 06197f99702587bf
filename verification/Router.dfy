/** The network process of one node: its tables, and its packet handler's loops. */
module Router {
  import opened Basics
  import opened Topology
  import opened DistanceVector
  import DvTable
  import RoutingTable

  /** One line of a route update as it arrives. */
  datatype Line = Line(nodeID: nat, cost: nat)

  /** The copy of the sender's vector after an update: lines count only where the node
      IDs agree. */
  function HeardVector(ids: seq<nat>, lines: seq<Line>, copy: seq<nat>): (vec: seq<nat>)
    requires |ids| == |copy| <= |lines|
    ensures |vec| == |ids|
    ensures forall i :: 0 <= i < |ids| && lines[i].nodeID == ids[i] ==> vec[i] == lines[i].cost
    ensures forall i :: 0 <= i < |ids| && lines[i].nodeID != ids[i] ==> vec[i] == copy[i]
  {
    seq(|ids|, i requires 0 <= i < |ids| => if lines[i].nodeID == ids[i] then lines[i].cost else copy[i])
  }

  /** What a node with these IDs puts into an update for a vector. */
  function LinesOf(ids: seq<nat>, vec: seq<nat>): (lines: seq<Line>)
    requires |ids| == |vec|
    ensures |lines| == |ids|
  {
    seq(|ids|, i requires 0 <= i < |ids| => Line(ids[i], vec[i]))
  }

  /** Between nodes that list the overlay in the same order an update gets through whole,
      whatever the copy was and whatever fills up the packet. */
  lemma UpdateGetsThrough(ids: seq<nat>, vec: seq<nat>, rest: seq<Line>, copy: seq<nat>)
    requires |ids| == |vec| == |copy|
    ensures HeardVector(ids, LinesOf(ids, vec) + rest, copy) == vec
  {
    forall i | 0 <= i < |ids| ensures (LinesOf(ids, vec) + rest)[i] == Line(ids[i], vec[i]) {
    }
  }

  function IDsOf(ids: seq<nat>, nodes: seq<nat>): (r: seq<nat>)
    requires forall j :: 0 <= j < |nodes| ==> nodes[j] < |ids|
    ensures |r| == |nodes| && forall j :: 0 <= j < |r| ==> r[j] == ids[nodes[j]]
  {
    seq(|nodes|, j requires 0 <= j < |nodes| => ids[nodes[j]])
  }

  lemma IDsAreDistinct(ids: seq<nat>, me: nat, nbrs: seq<nat>)
    requires DvTable.Distinct(ids) && DvTable.Distinct(nbrs) && me < |ids| && me !in nbrs
    requires forall j :: 0 <= j < |nbrs| ==> nbrs[j] < |ids|
    ensures DvTable.Distinct([ids[me]] + IDsOf(ids, nbrs))
    ensures DvTable.Distinct(IDsOf(ids, nbrs))
  {
    var r := IDsOf(ids, nbrs);
    forall i, j | 0 <= i < j < |r| ensures r[i] != r[j] {
      assert nbrs[i] != nbrs[j];
    }
  }

  datatype Action = ToTransport | ToNode(next: int)

  /** Where the packet handler of a node with these next hops sends a packet. */
  ghost function Routed(ids: seq<nat>, me: nat, next: map<nat, nat>, destID: nat): Action
    requires me < |ids| && forall d :: d in next ==> next[d] < |ids|
  {
    if destID == ids[me] then ToTransport
    else if exists d: nat :: d < |ids| && ids[d] == destID && d in next then
      var d: nat :| d < |ids| && ids[d] == destID && d in next;
      ToNode(ids[next[d]])
    else ToNode(-1)
  }

  lemma RoutedIs(ids: seq<nat>, me: nat, next: map<nat, nat>, d: nat)
    requires me < |ids| && (forall d :: d in next ==> next[d] < |ids|) && DvTable.Distinct(ids) && d < |ids|
    ensures Routed(ids, me, next, ids[d]) ==
            if d == me then ToTransport else if d in next then ToNode(ids[next[d]]) else ToNode(-1)
  {
    assert forall e :: 0 <= e < |ids| && ids[e] == ids[d] ==> !(e < d) && !(d < e);
  }

  class Router {
    const me: nat
    const ids: seq<nat>
    const nbrs: seq<nat>
    const nct: seq<(nat, nat)>
    const dv: DvTable.Table
    const table: RoutingTable.Table
    /** The graph the tables were read from, and the node this process stands for. */
    ghost const c: Costs
    ghost var node: Node

    ghost predicate Fixed() {
      && Topology.Valid(c) && |ids| == |c| && me < |c| && DvTable.Distinct(ids)
      && (forall j :: 0 <= j < |nbrs| ==> Nbr(c, me, nbrs[j]))
      && (forall s: nat :: Nbr(c, me, s) ==> s in nbrs)
      && |nct| == |nbrs|
      && (forall j :: 0 <= j < |nct| ==> nct[j] == (ids[nbrs[j]], c[me][nbrs[j]]))
      && dv.Valid() && dv.nodeIDs == ids
      && |dv.rowIDs| == |nbrs| + 1 && dv.rowIDs[0] == ids[me]
      && (forall j :: 0 <= j < |nbrs| ==> dv.rowIDs[j + 1] == ids[nbrs[j]])
    }

    /** The distance vector table holds the node's vector and copies. */
    ghost predicate Vectors(node: Node)
      requires Fixed()
      reads dv.cost
    {
      && Holding(0, node.dv)
      && (forall s :: s in node.copies <==> Nbr(c, me, s))
      && (forall j :: 0 <= j < |nbrs| ==> Holding(j + 1, node.copies[nbrs[j]]))
    }

    /** A row of the distance vector table spells out vec. */
    ghost predicate Holding(row: nat, vec: seq<nat>)
      requires Fixed() && row < |dv.rowIDs|
      reads dv.cost
    {
      |vec| == |ids| && forall i :: 0 <= i < |vec| ==> dv.cost[row, i] == vec[i]
    }

    /** The routing table holds the node's next hops, by node ID. */
    ghost predicate Hops(next: map<nat, nat>, routes: map<nat, int>)
      requires Fixed()
    {
      && (forall i :: i in next ==> i < |ids| && next[i] < |ids|)
      && (forall d :: d in routes ==> d in ids)
      && (forall i :: 0 <= i < |ids| ==>
            && (i in next <==> ids[i] in routes)
            && (i in next ==> routes[ids[i]] == ids[next[i]]))
    }

    ghost predicate Valid()
      reads this, dv.cost, table, table.Repr
    {
      && Fixed() && Vectors(node)
      && table.Valid() && Hops(node.next, table.routes)
      && {this, dv.cost} !! table.Repr
    }

    /** The tables as they are read from the topology. */
    constructor (ghost c: Costs, me: nat, ids: seq<nat>, nbrs: seq<nat>, links: seq<nat>)
      requires Topology.Valid(c) && me < |c| && |ids| == |c| && DvTable.Distinct(ids) && DvTable.Distinct(nbrs)
      requires forall j :: 0 <= j < |nbrs| ==> Nbr(c, me, nbrs[j])
      requires forall s: nat :: Nbr(c, me, s) ==> s in nbrs
      requires links == c[me]
      ensures Valid() && fresh(dv.cost) && fresh(table) && fresh(table.Repr)
      ensures this.c == c && this.me == me && this.ids == ids
      ensures node == InitNode(c, me)
    {
      this.c, this.me, this.ids, this.nbrs := c, me, ids, nbrs;
      var nbrIDs := IDsOf(ids, nbrs);
      this.nct := seq(|nbrs|, j requires 0 <= j < |nbrs| => (nbrIDs[j], links[nbrs[j]]));
      IDsAreDistinct(ids, me, nbrs);
      dv := new DvTable.Table(ids[me], nbrIDs, ids, links);
      table := new RoutingTable.Table(nbrIDs);
      node := InitNode(c, me);
      new;
      FirstVectors();
      FirstHops(nbrIDs);
    }

    lemma FirstVectors()
      requires Fixed()
      requires forall i :: 0 <= i < |ids| ==> dv.cost[0, i] == c[me][i]
      requires forall j, i :: 0 < j < |dv.rowIDs| && 0 <= i < |ids| ==> dv.cost[j, i] == INFINITE_COST
      ensures Vectors(InitNode(c, me))
    {
      var node := InitNode(c, me);
      forall j | 0 <= j < |nbrs| ensures Holding(j + 1, node.copies[nbrs[j]]) {
        assert node.copies[nbrs[j]] == Unreached(|c|);
      }
    }

    lemma FirstHops(nbrIDs: seq<nat>)
      requires Fixed() && |nbrIDs| == |nbrs| && forall j :: 0 <= j < |nbrs| ==> nbrIDs[j] == ids[nbrs[j]]
      ensures Hops(InitNode(c, me).next, map d | d in nbrIDs :: d)
    {
      var next := InitNode(c, me).next;
      forall i | 0 <= i < |ids| ensures i in next <==> ids[i] in nbrIDs {
        if i in next {
          assert Nbr(c, me, i);
          var j :| 0 <= j < |nbrs| && nbrs[j] == i;
          assert nbrIDs[j] == ids[i];
        }
        if ids[i] in nbrIDs {
          var j :| 0 <= j < |nbrIDs| && nbrIDs[j] == ids[i];
          assert nbrs[j] == i;
        }
      }
    }

    /** The direct link cost of a neighbour, or INFINITE_COST. */
    method LinkCost(nodeID: nat) returns (cost: nat)
      requires Fixed()
      ensures forall j :: 0 <= j < |nbrs| && ids[nbrs[j]] == nodeID ==> cost == c[me][nbrs[j]]
      ensures (forall j :: 0 <= j < |nbrs| ==> ids[nbrs[j]] != nodeID) ==> cost == INFINITE_COST
    {
      for i := 0 to |nct|
        invariant forall j :: 0 <= j < i ==> nct[j].0 != nodeID
      {
        if nct[i].0 == nodeID {
          assert forall j :: 0 <= j < |nbrs| && ids[nbrs[j]] == nodeID ==> nbrs[j] == nbrs[i];
          return nct[i].1;
        }
      }
      return INFINITE_COST;
    }

    /** The vector a broadcast carries. */
    method RouteUpdateData() returns (vec: seq<nat>)
      requires Fixed() && Holding(0, node.dv)
      ensures vec == node.dv
    {
      vec := [];
      for i := 0 to |ids|
        invariant vec == node.dv[..i]
      {
        vec := vec + [dv.cost[0, i]];
      }
    }

    /** Overwrites the sender's copy, line by line, and tells whether anything changed. */
    method OverwriteCopy(row: nat, lines: seq<Line>, ghost copy: seq<nat>) returns (changed: bool)
      requires Fixed() && 0 < row < |dv.rowIDs| && |ids| <= |lines| && Holding(row, copy)
      modifies dv.cost
      ensures Holding(row, HeardVector(ids, lines, copy))
      ensures changed <==> HeardVector(ids, lines, copy) != copy
      ensures forall r, k :: 0 <= r < |dv.rowIDs| && 0 <= k < |ids| && r != row ==>
                dv.cost[r, k] == old(dv.cost[r, k])
    {
      ghost var vec := HeardVector(ids, lines, copy);
      changed := false;
      for i := 0 to |ids|
        invariant forall k :: 0 <= k < i ==> dv.cost[row, k] == vec[k]
        invariant forall k :: i <= k < |ids| ==> dv.cost[row, k] == copy[k]
        invariant forall r, k :: 0 <= r < |dv.rowIDs| && 0 <= k < |ids| && r != row ==>
                    dv.cost[r, k] == old(dv.cost[r, k])
        invariant changed <==> vec[..i] != copy[..i]
      {
        assert vec[..i + 1] == vec[..i] + [vec[i]] && copy[..i + 1] == copy[..i] + [copy[i]];
        if lines[i].nodeID == ids[i] && lines[i].cost != dv.cost[row, i] {
          dv.cost[row, i] := lines[i].cost;
          changed := true;
        }
      }
      assert vec[..|ids|] == vec && copy[..|ids|] == copy;
    }

    /** Relaxes every destination against the sender's copy; each fall is followed by a
        broadcast of the vector as it then stands. */
    method RelaxAll(row: nat, src: nat, link: nat) returns (outs: seq<seq<nat>>)
      requires Valid() && 0 < row < |dv.rowIDs| && src == ids[nbrs[row - 1]]
      modifies this`node, dv.cost, table, table.Repr
      ensures Valid() && fresh(table.Repr - old(table.Repr))
      ensures var s := nbrs[row - 1];
              && Holds(old(node), s, |ids|)
              && node == RelaxUpTo(old(node), link, s, |ids|)
              && outs == RelaxBroadcasts(old(node), link, s, |ids|)
    {
      ghost var s, was := nbrs[row - 1], node;
      outs := [];
      for i := 0 to |ids|
        invariant Valid() && fresh(table.Repr - old(table.Repr))
        invariant Holds(was, s, |ids|)
        invariant node == RelaxUpTo(was, link, s, i)
        invariant outs == RelaxBroadcasts(was, link, s, i)
      {
        var out := RelaxOne(i, row, src, link);
        OneMoreRelaxed(was, link, s, i, node, out);
        outs := outs + out;
      }
    }

    static lemma OneMoreRelaxed(was: Node, link: nat, s: nat, i: nat, now: Node, out: seq<seq<nat>>)
      requires Holds(was, s, |was.dv|) && i < |was.dv|
      requires now == RelaxEntry(RelaxUpTo(was, link, s, i), link, s, i)
      requires out == if now.dv == RelaxUpTo(was, link, s, i).dv then [] else [now.dv]
      ensures now == RelaxUpTo(was, link, s, i + 1)
      ensures RelaxBroadcasts(was, link, s, i) + out == RelaxBroadcasts(was, link, s, i + 1)
    {
    }

    method RelaxOne(i: nat, row: nat, src: nat, link: nat) returns (out: seq<seq<nat>>)
      requires Valid() && i < |ids| && 0 < row < |dv.rowIDs| && src == ids[nbrs[row - 1]]
      modifies this`node, dv.cost, table, table.Repr
      ensures Valid() && fresh(table.Repr - old(table.Repr))
      ensures var s := nbrs[row - 1];
              Holds(old(node), s, |old(node).dv|) && i < |old(node).dv| && node == RelaxEntry(old(node), link, s, i)
      ensures out == if node.dv == old(node).dv then [] else [node.dv]
    {
      ghost var s := nbrs[row - 1];
      assert Holding(row, node.copies[s]);
      var newMin := Min(dv.cost[0, i], Add32(link, dv.cost[row, i]));
      out := [];
      if newMin < dv.cost[0, i] {
        Improve(i, newMin, src, s);
        assert node.dv[i] != old(node).dv[i];
        var vec := RouteUpdateData();
        out := [vec];
      }
    }

    /** The two assignments made under the locks. */
    method Improve(i: nat, newMin: nat, src: nat, ghost s: nat)
      requires Valid() && i < |ids| && s < |ids| && src == ids[s]
      modifies this`node, dv.cost, table, table.Repr
      ensures Valid() && fresh(table.Repr - old(table.Repr))
      ensures node == old(node).(dv := old(node).dv[i := newMin], next := old(node).next[i := s])
    {
      ghost var better := node.(dv := node.dv[i := newMin], next := node.next[i := s]);
      dv.cost[0, i] := newMin;
      assert forall j :: 0 <= j < |nbrs| ==> Holding(j + 1, better.copies[nbrs[j]]) by {
        assert forall j :: 0 <= j < |nbrs| ==> old(Holding(j + 1, node.copies[nbrs[j]]));
      }
      HopsChange(node.next, table.routes, i, s);
      table.SetNextNode(ids[i], src);
      node := better;
    }

    lemma HopsChange(next: map<nat, nat>, routes: map<nat, int>, i: nat, s: nat)
      requires Fixed() && Hops(next, routes) && i < |ids| && s < |ids|
      ensures Hops(next[i := s], routes[ids[i] := ids[s]])
    {
      forall k | 0 <= k < |ids| && k != i ensures ids[k] != ids[i] {
        assert k < i || i < k;
      }
    }

    /** A route update from a neighbour, and the vectors broadcast because of it. */
    method HandleRouteUpdate(srcID: nat, lines: seq<Line>, ghost s: nat) returns (outs: seq<seq<nat>>)
      requires Valid() && |ids| <= |lines| && Nbr(c, me, s) && ids[s] == srcID
      modifies this`node, dv.cost, table, table.Repr
      ensures Valid() && fresh(table.Repr - old(table.Repr))
      ensures Holds(old(node), s, |ids|)
      ensures (node, outs) ==
              HandleUpdate(old(node), c[me][s], s, HeardVector(ids, lines, old(node).copies[s]))
    {
      var row := dv.FindRow(srcID);
      RowOf(s, row);
      var changed := HearFrom(row, lines, s);
      outs := [];
      if changed {
        var link := LinkCost(srcID);
        outs := RelaxAll(row, srcID, link);
      }
    }

    /** Stores the sender's vector. */
    method HearFrom(row: nat, lines: seq<Line>, ghost s: nat) returns (changed: bool)
      requires Valid() && |ids| <= |lines| && 0 < row < |dv.rowIDs| && nbrs[row - 1] == s
      modifies this`node, dv.cost
      ensures Valid()
      ensures var vec := HeardVector(ids, lines, old(node).copies[s]);
              && (changed <==> old(node).copies[s] != vec)
              && node == if changed then Overwrite(old(node), s, vec) else old(node)
    {
      changed := StoreVector(row, lines, s);
    }

    method StoreVector(row: nat, lines: seq<Line>, ghost s: nat) returns (changed: bool)
      requires Fixed() && Vectors(node) && |ids| <= |lines| && 0 < row < |dv.rowIDs| && nbrs[row - 1] == s
      modifies this`node, dv.cost
      ensures Vectors(node)
      ensures var vec := HeardVector(ids, lines, old(node).copies[s]);
              && (changed <==> old(node).copies[s] != vec)
              && node == if changed then Overwrite(old(node), s, vec) else old(node)
    {
      assert Holding(row, node.copies[s]);
      ghost var vec := HeardVector(ids, lines, node.copies[s]);
      changed := OverwriteCopy(row, lines, node.copies[s]);
      assert Holding(0, node.dv) by {
        assert old(Holding(0, node.dv));
      }
      forall j | 0 <= j < |nbrs| && j != row - 1 ensures Holding(j + 1, node.copies[nbrs[j]]) {
        assert old(Holding(j + 1, node.copies[nbrs[j]]));
      }
      HeardVectors(node, row, s, vec);
      if changed {
        node := Overwrite(node, s, vec);
      }
    }

    lemma HeardVectors(was: Node, row: nat, s: nat, vec: seq<nat>)
      requires Fixed() && 0 < row < |dv.rowIDs| && nbrs[row - 1] == s
      requires Holding(0, was.dv) && Holding(row, vec) && forall v :: v in was.copies <==> Nbr(c, me, v)
      requires forall j :: 0 <= j < |nbrs| && j != row - 1 ==> Holding(j + 1, was.copies[nbrs[j]])
      ensures Vectors(Overwrite(was, s, vec)) && (was.copies[s] == vec ==> Vectors(was))
    {
      var now := Overwrite(was, s, vec);
      forall j | 0 <= j < |nbrs| ensures Holding(j + 1, now.copies[nbrs[j]]) {
        if j != row - 1 {
          RowsDiffer(j + 1, row);
        }
      }
      assert was.copies[s] == vec ==> was.copies[s := vec] == was.copies;
    }

    /** The row found for a neighbour is the one kept for it. */
    lemma RowOf(s: nat, row: int)
      requires Fixed() && Nbr(c, me, s)
      requires if ids[s] in dv.rowIDs then 0 <= row < |dv.rowIDs| && dv.rowIDs[row] == ids[s] else row == -1
      ensures 0 < row < |dv.rowIDs| && nbrs[row - 1] == s
    {
      var j :| 0 <= j < |nbrs| && nbrs[j] == s;
      assert dv.rowIDs[j + 1] == ids[s];
      assert row == j + 1;
    }

    lemma RowsDiffer(i: nat, j: nat)
      requires Fixed() && 0 < i < |dv.rowIDs| && 0 < j < |dv.rowIDs| && i != j
      ensures nbrs[i - 1] != nbrs[j - 1]
    {
      assert dv.rowIDs[i] != dv.rowIDs[j] by {
        assert i < j || j < i;
      }
    }

    /** The next hop given to a segment from the local transport: always by the table,
        even for this node itself. */
    method Inject(destID: nat) returns (next: int)
      requires Valid()
      ensures forall d: nat :: d < |ids| && ids[d] == destID ==>
                next == if d in node.next then ids[node.next[d]] else -1
      ensures destID !in ids ==> next == -1
    {
      next := table.GetNextNode(destID);
    }

    /** Where a packet for destID goes: up at its destination, else to the next hop; an
        unknown destination gives the invalid hop -1. */
    method Forward(destID: nat) returns (action: Action)
      requires Valid()
      ensures forall d: nat :: d < |ids| && ids[d] == destID ==>
                action == if d == me then ToTransport
                          else if d in node.next then ToNode(ids[node.next[d]])
                          else ToNode(-1)
      ensures destID !in ids ==> action == ToNode(-1)
      ensures action == Routed(ids, me, node.next, destID)
    {
      if destID == ids[me] {
        return ToTransport;
      }
      var next := table.GetNextNode(destID);
      return ToNode(next);
    }
  }
}
