/** The overlay graph as every node reads it: link costs, walks and their costs,
    and the distance that routing is meant to find. */
module Topology {

  const INFINITE_COST: nat := 999

  /** Row x holds the direct link costs of node x; nodes are numbered in the order
      shared by every node's tables. */
  type Costs = seq<seq<nat>>

  /** Zero to oneself, a symmetric cost in 1..998 on a link, INFINITE_COST without one. */
  ghost predicate Valid(c: Costs) {
    && (forall x :: 0 <= x < |c| ==> |c[x]| == |c| && c[x][x] == 0)
    && (forall x, y :: 0 <= x < |c| && 0 <= y < |c| ==> c[x][y] <= INFINITE_COST)
    && (forall x, y :: 0 <= x < |c| && 0 <= y < |c| && x != y ==> 1 <= c[x][y])
    && (forall x, y :: 0 <= x < |c| && 0 <= y < |c| ==> c[x][y] == c[y][x])
  }

  predicate Nbr(c: Costs, x: nat, y: nat) {
    x < |c| && y < |c| && y < |c[x]| && x != y && c[x][y] < INFINITE_COST
  }

  function Link(c: Costs, x: nat, y: nat): nat {
    if x < |c| && y < |c[x]| then c[x][y] else INFINITE_COST
  }

  /** A walk from x to d over links; it may visit a node more than once. */
  ghost predicate Walk(c: Costs, p: seq<nat>, x: nat, d: nat) {
    && |p| >= 1 && p[0] == x && x < |c|
    && if |p| == 1 then x == d else Nbr(c, x, p[1]) && Walk(c, p[1..], p[1], d)
  }

  function WalkCost(c: Costs, p: seq<nat>): nat {
    if |p| <= 1 then 0 else Link(c, p[0], p[1]) + WalkCost(c, p[1..])
  }

  ghost predicate HasWalk(c: Costs, x: nat, d: nat, cost: nat) {
    exists p :: Walk(c, p, x, d) && WalkCost(c, p) == cost
  }

  /** cost is the smaller of INFINITE_COST and the cost of the cheapest walk. */
  ghost predicate IsDistance(c: Costs, x: nat, d: nat, cost: nat) {
    && cost <= INFINITE_COST
    && (cost < INFINITE_COST ==> HasWalk(c, x, d, cost))
    && (forall p :: Walk(c, p, x, d) ==> cost <= WalkCost(c, p))
  }

  lemma DistanceIsUnique(c: Costs, x: nat, d: nat, a: nat, b: nat)
    requires IsDistance(c, x, d, a) && IsDistance(c, x, d, b)
    ensures a == b
  {
  }

  lemma ExtendWalk(c: Costs, x: nat, y: nat, d: nat, p: seq<nat>)
    requires Nbr(c, x, y) && Walk(c, p, y, d)
    ensures Walk(c, [x] + p, x, d)
    ensures WalkCost(c, [x] + p) == c[x][y] + WalkCost(c, p)
  {
    assert ([x] + p)[1..] == p;
  }

  lemma ExtendHasWalk(c: Costs, x: nat, y: nat, d: nat, cost: nat)
    requires Nbr(c, x, y) && HasWalk(c, y, d, cost)
    ensures HasWalk(c, x, d, c[x][y] + cost)
  {
    var p :| Walk(c, p, y, d) && WalkCost(c, p) == cost;
    ExtendWalk(c, x, y, d, p);
  }

  lemma {:induction false} SplitWalk(c: Costs, p: seq<nat>, x: nat, d: nat, i: nat)
    requires Walk(c, p, x, d) && i < |p|
    ensures Walk(c, p[..i + 1], x, p[i]) && Walk(c, p[i..], p[i], d)
    ensures WalkCost(c, p) == WalkCost(c, p[..i + 1]) + WalkCost(c, p[i..])
  {
    if i == 0 {
      assert p[0..] == p;
    } else {
      SplitWalk(c, p[1..], p[1], d, i - 1);
      assert p[1..][..i] == p[..i + 1][1..];
      assert p[1..][i - 1..] == p[i..];
    }
  }

  lemma {:induction false} JoinWalks(c: Costs, p: seq<nat>, q: seq<nat>, x: nat, y: nat, d: nat)
    requires Walk(c, p, x, y) && Walk(c, q, y, d)
    ensures Walk(c, p + q[1..], x, d)
    ensures WalkCost(c, p + q[1..]) == WalkCost(c, p) + WalkCost(c, q)
  {
    if |p| == 1 {
      assert p + q[1..] == q;
    } else {
      JoinWalks(c, p[1..], q, p[1], y, d);
      assert (p + q[1..])[1..] == p[1..] + q[1..];
    }
  }

  lemma {:induction false} WalkStaysInside(c: Costs, p: seq<nat>, x: nat, d: nat, i: nat)
    requires Walk(c, p, x, d) && i < |p|
    ensures p[i] < |c|
  {
    if i > 0 {
      WalkStaysInside(c, p[1..], p[1], d, i - 1);
    }
  }

  ghost function Members(s: seq<nat>): set<nat> {
    set v | v in s
  }

  lemma {:induction false} DistinctMembersCount(s: seq<nat>)
    requires forall i, j :: 0 <= i < j < |s| ==> s[i] != s[j]
    ensures |Members(s)| == |s|
  {
    if s == [] {
      assert Members(s) == {};
    } else {
      DistinctMembersCount(s[1..]);
      assert s[0] !in s[1..];
      assert Members(s) == Members(s[1..]) + {s[0]};
    }
  }

  lemma {:induction false} BelowCount(n: nat, a: set<nat>)
    requires forall v :: v in a ==> v < n
    ensures |a| <= n
  {
    if n > 0 {
      BelowCount(n - 1, a - {n - 1});
      if n - 1 in a {
        assert a == (a - {n - 1}) + {n - 1};
      } else {
        assert a == a - {n - 1};
      }
    } else {
      assert a == {};
    }
  }

  lemma Pigeonhole(s: seq<nat>, n: nat)
    requires |s| > n
    requires forall i :: 0 <= i < |s| ==> s[i] < n
    ensures exists i, j :: 0 <= i < j < |s| && s[i] == s[j]
  {
    if forall i, j :: 0 <= i < j < |s| ==> s[i] != s[j] {
      DistinctMembersCount(s);
      BelowCount(n, Members(s));
    }
  }

  /** Cutting cycles: some walk with fewer edges than there are nodes is no dearer. */
  lemma {:induction false} ShortWalkIsEnough(c: Costs, p: seq<nat>, x: nat, d: nat) returns (q: seq<nat>)
    requires Walk(c, p, x, d)
    ensures Walk(c, q, x, d) && |q| <= |c| && WalkCost(c, q) <= WalkCost(c, p)
    decreases |p|
  {
    if |p| <= |c| {
      q := p;
    } else {
      forall i | 0 <= i < |p| ensures p[i] < |c| {
        WalkStaysInside(c, p, x, d, i);
      }
      Pigeonhole(p, |c|);
      var i, j :| 0 <= i < j < |p| && p[i] == p[j];
      SplitWalk(c, p, x, d, i);
      SplitWalk(c, p, x, d, j);
      SplitWalk(c, p[..j + 1], x, p[j], i);
      assert p[..j + 1][..i + 1] == p[..i + 1];
      JoinWalks(c, p[..i + 1], p[j..], x, p[i], d);
      q := ShortWalkIsEnough(c, p[..i + 1] + p[j..][1..], x, d);
    }
  }
}
