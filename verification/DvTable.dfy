/** The distance vector table: one row per source, its own node first, and one column per
    node of the overlay. */
module DvTable {
  import opened Topology

  predicate Distinct(s: seq<nat>) {
    forall i, j :: 0 <= i < j < |s| ==> s[i] != s[j]
  }

  class Table {
    const rowIDs: seq<nat>
    const nodeIDs: seq<nat>
    const cost: array2<nat>

    ghost predicate Valid() {
      && |rowIDs| > 0 && |nodeIDs| > 0
      && cost.Length0 == |rowIDs| && cost.Length1 == |nodeIDs|
      && Distinct(rowIDs) && Distinct(nodeIDs)
    }

    /** The direct link costs for this node, nothing yet for its neighbours. */
    constructor (me: nat, nbrs: seq<nat>, nodes: seq<nat>, links: seq<nat>)
      requires nodes != [] && Distinct([me] + nbrs) && Distinct(nodes) && |links| == |nodes|
      ensures Valid() && fresh(cost) && rowIDs == [me] + nbrs && nodeIDs == nodes
      ensures forall i :: 0 <= i < |nodes| ==> cost[0, i] == links[i]
      ensures forall j, i :: 0 < j < |rowIDs| && 0 <= i < |nodes| ==> cost[j, i] == INFINITE_COST
    {
      rowIDs := [me] + nbrs;
      nodeIDs := nodes;
      cost := new nat[|nbrs| + 1, |nodes|];
      new;
      for i := 0 to |nodes|
        invariant forall k :: 0 <= k < i ==> cost[0, k] == links[k]
      {
        cost[0, i] := links[i];
      }
      for j := 1 to |nbrs| + 1
        invariant forall k :: 0 <= k < |nodes| ==> cost[0, k] == links[k]
        invariant forall h, k :: 0 < h < j && 0 <= k < |nodes| ==> cost[h, k] == INFINITE_COST
      {
        for i := 0 to |nodes|
          invariant forall k :: 0 <= k < |nodes| ==> cost[0, k] == links[k]
          invariant forall h, k :: 0 < h < j && 0 <= k < |nodes| ==> cost[h, k] == INFINITE_COST
          invariant forall k :: 0 <= k < i ==> cost[j, k] == INFINITE_COST
        {
          cost[j, i] := INFINITE_COST;
        }
      }
    }

    /** The row kept for a source, or -1. */
    method FindRow(src: nat) returns (r: int)
      requires Valid()
      ensures if src in rowIDs then 0 <= r < |rowIDs| && rowIDs[r] == src else r == -1
    {
      var i := 0;
      while i < |rowIDs|
        invariant 0 <= i <= |rowIDs| && src !in rowIDs[..i]
      {
        if rowIDs[i] == src {
          return i;
        }
        i := i + 1;
      }
      return -1;
    }

    /** The cost kept for a pair of nodes, or INFINITE_COST when there is none. */
    method GetCost(from: nat, to: nat) returns (c: nat)
      requires Valid()
      ensures forall r, k :: 0 <= r < |rowIDs| && 0 <= k < |nodeIDs| && rowIDs[r] == from && nodeIDs[k] == to ==>
                c == cost[r, k]
      ensures from !in rowIDs || to !in nodeIDs ==> c == INFINITE_COST
    {
      var i := 0;
      while i < |rowIDs|
        invariant 0 <= i <= |rowIDs|
        invariant to !in nodeIDs || from !in rowIDs[..i]
      {
        if rowIDs[i] == from {
          var j := 0;
          while j < |nodeIDs|
            invariant 0 <= j <= |nodeIDs| && to !in nodeIDs[..j]
          {
            if nodeIDs[j] == to {
              return cost[i, j];
            }
            j := j + 1;
          }
        }
        i := i + 1;
      }
      return INFINITE_COST;
    }

    /** Sets the cost kept for a pair of nodes and tells whether there was one to set. */
    method SetCost(from: nat, to: nat, c: nat) returns (r: int)
      requires Valid()
      modifies cost
      ensures r == if from in rowIDs && to in nodeIDs then 1 else -1
      ensures forall h, k :: 0 <= h < |rowIDs| && 0 <= k < |nodeIDs| ==>
                cost[h, k] == if rowIDs[h] == from && nodeIDs[k] == to then c else old(cost[h, k])
    {
      var i := 0;
      while i < |rowIDs|
        invariant 0 <= i <= |rowIDs|
        invariant to !in nodeIDs || from !in rowIDs[..i]
        invariant forall r, k :: 0 <= r < |rowIDs| && 0 <= k < |nodeIDs| ==> cost[r, k] == old(cost[r, k])
      {
        if rowIDs[i] == from {
          var j := 0;
          while j < |nodeIDs|
            invariant 0 <= j <= |nodeIDs| && to !in nodeIDs[..j]
            invariant forall r, k :: 0 <= r < |rowIDs| && 0 <= k < |nodeIDs| ==> cost[r, k] == old(cost[r, k])
          {
            if nodeIDs[j] == to {
              cost[i, j] := c;
              return 1;
            }
            j := j + 1;
          }
        }
        i := i + 1;
      }
      return -1;
    }
  }
}
