/** The routing table: ten hash slots, each a linked chain of entries. */
module RoutingTable {

  const MAX_ROUTINGTABLE_SLOTS := 10

  /** Node IDs are not negative, so C's remainder is the mathematical one. */
  function MakeHash(node: nat): (slot: nat)
    ensures slot < MAX_ROUTINGTABLE_SLOTS && (node - slot) % MAX_ROUTINGTABLE_SLOTS == 0
  {
    node % MAX_ROUTINGTABLE_SLOTS
  }

  class Entry {
    const dest: nat
    var nextNode: int
    var next: Entry?

    constructor (dest: nat, nextNode: int)
      ensures this.dest == dest && this.nextNode == nextNode && next == null
    {
      this.dest, this.nextNode, next := dest, nextNode, null;
    }
  }

  ghost function At(es: seq<Entry>, i: int): Entry? {
    if 0 <= i < |es| then es[i] else null
  }

  /** es is the chain that starts at head: linked in order, ended by null, in its own
      slot, and with no destination twice. */
  ghost predicate Chain(head: Entry?, es: seq<Entry>, slot: nat)
    reads es
  {
    && head == At(es, 0)
    && (forall i {:trigger es[i].next} :: 0 <= i < |es| ==> es[i].next == At(es, i + 1))
    && (forall i :: 0 <= i < |es| ==> MakeHash(es[i].dest) == slot)
    && (forall i, j :: 0 <= i < j < |es| ==> es[i].dest != es[j].dest)
  }

  /** The entries of es are exactly the routes that hash to slot. */
  ghost predicate Holds(es: seq<Entry>, slot: nat, routes: map<nat, int>)
    reads es
  {
    && (forall i :: 0 <= i < |es| ==> es[i].dest in routes && routes[es[i].dest] == es[i].nextNode)
    && (forall d :: d in routes && MakeHash(d) == slot ==> Listed(es, d))
  }

  ghost predicate Listed(es: seq<Entry>, d: nat) {
    exists i :: 0 <= i < |es| && es[i].dest == d
  }

  class Table {
    const hash: array<Entry?>
    /** The chains slot by slot, and the map they stand for. */
    ghost var chains: seq<seq<Entry>>
    ghost var routes: map<nat, int>
    ghost var Repr: set<object>

    ghost predicate Slot(h: nat)
      requires h < |chains| && h < hash.Length
      reads this, hash, chains[h]
    {
      && Chain(hash[h], chains[h], h) && Holds(chains[h], h, routes)
      && forall i :: 0 <= i < |chains[h]| ==> chains[h][i] in Repr
    }

    ghost predicate Valid()
      reads this, Repr
      ensures Valid() ==> this in Repr
    {
      && this in Repr && hash in Repr
      && hash.Length == |chains| == MAX_ROUTINGTABLE_SLOTS
      && (forall h :: 0 <= h < |chains| ==> forall i :: 0 <= i < |chains[h]| ==> chains[h][i] in Repr)
      && (forall h :: 0 <= h < |chains| ==> Slot(h))
    }

    /** An entry's slot shows in its destination, so chains share no entry. */
    lemma SlotsApart(g: nat, h: nat, i: nat, j: nat)
      requires Valid() && g < |chains| && h < |chains| && i < |chains[g]| && j < |chains[h]|
      ensures chains[g][i] == chains[h][j] ==> g == h && i == j
    {
      assert Slot(g) && Slot(h);
    }

    /** Every neighbour is its own next hop; nothing else is known yet. */
    constructor (nbrs: seq<nat>)
      requires forall i, j :: 0 <= i < j < |nbrs| ==> nbrs[i] != nbrs[j]
      ensures Valid() && fresh(Repr)
      ensures routes == map d | d in nbrs :: d
    {
      hash := new Entry?[MAX_ROUTINGTABLE_SLOTS](_ => null);
      chains := seq(MAX_ROUTINGTABLE_SLOTS, _ => []);
      routes := map[];
      new;
      Repr := {this, hash};
      for j := 0 to |nbrs|
        invariant Valid() && fresh(Repr)
        invariant routes == map d | d in nbrs[..j] :: d
      {
        assert nbrs[..j + 1] == nbrs[..j] + [nbrs[j]];
        assert nbrs[j] !in nbrs[..j];
        Append(nbrs[j], nbrs[j]);
      }
      assert nbrs[..|nbrs|] == nbrs;
    }

    /** A new entry at the end of its slot's chain. */
    method Append(dest: nat, nextNode: int)
      requires Valid() && dest !in routes
      modifies Repr
      ensures Valid() && fresh(Repr - old(Repr))
      ensures routes == old(routes)[dest := nextNode]
    {
      var h := MakeHash(dest);
      assert Slot(h);
      ghost var es := chains[h];
      if hash[h] == null {
        StartChain(dest, nextNode);
      } else {
        var last := hash[h];
        ghost var i := 0;
        while last.next != null
          invariant 0 <= i < |es| && last == es[i]
          decreases |es| - i
        {
          last := last.next;
          i := i + 1;
        }
        LinkAfter(last, dest, nextNode);
      }
    }

    method StartChain(dest: nat, nextNode: int)
      requires Valid() && hash[MakeHash(dest)] == null
      modifies this, hash
      ensures Valid() && fresh(Repr - old(Repr))
      ensures routes == old(routes)[dest := nextNode]
    {
      ghost var h := MakeHash(dest);
      assert Slot(h);
      var temp := new Entry(dest, nextNode);
      hash[MakeHash(dest)] := temp;
      forall g | 0 <= g < |chains| && g != h ensures Slot(g) {
        assert old(Slot(g));
      }
      Record([], temp);
    }

    method LinkAfter(last: Entry, dest: nat, nextNode: int)
      requires Valid() && dest !in routes
      requires var es := chains[MakeHash(dest)]; es != [] && last == es[|es| - 1]
      modifies this, last
      ensures Valid() && fresh(Repr - old(Repr))
      ensures routes == old(routes)[dest := nextNode]
    {
      ghost var h, es := MakeHash(dest), chains[MakeHash(dest)];
      assert Slot(h);
      forall g, k | 0 <= g < |chains| && g != h && 0 <= k < |chains[g]| ensures chains[g][k] != last {
        SlotsApart(g, h, k, |es| - 1);
      }
      var temp := new Entry(dest, nextNode);
      last.next := temp;
      forall g | 0 <= g < |chains| && g != h ensures Slot(g) {
        assert old(Slot(g));
      }
      Record(es, temp);
    }

    /** Notes that e now follows es in its slot; the other slots are as they were. */
    ghost method Record(es: seq<Entry>, e: Entry)
      requires this in Repr && hash in Repr && hash.Length == |chains| == MAX_ROUTINGTABLE_SLOTS
      requires forall h :: 0 <= h < |chains| ==> forall i :: 0 <= i < |chains[h]| ==> chains[h][i] in Repr
      requires es == chains[MakeHash(e.dest)] && Chain(hash[MakeHash(e.dest)], es + [e], MakeHash(e.dest))
      requires Holds(es, MakeHash(e.dest), routes) && e.dest !in routes
      requires forall g :: 0 <= g < |chains| && g != MakeHash(e.dest) ==> Slot(g)
      modifies this
      ensures Valid() && Repr == old(Repr) + {e}
      ensures routes == old(routes)[e.dest := e.nextNode]
    {
      ghost var h := MakeHash(e.dest);
      chains := chains[h := es + [e]];
      routes := routes[e.dest := e.nextNode];
      Repr := Repr + {e};
      forall d | d in routes && MakeHash(d) == h ensures Listed(es + [e], d) {
        if d == e.dest {
          assert (es + [e])[|es|].dest == d;
        } else {
          assert Listed(es, d);
          var i :| 0 <= i < |es| && es[i].dest == d;
          assert (es + [e])[i].dest == d;
        }
      }
      assert Slot(h);
      forall g | 0 <= g < |chains| && g != h ensures Slot(g) {
        assert old(Slot(g));
      }
    }

    /** Overwrites the destination's entry, or appends one to its slot's chain. */
    method SetNextNode(dest: nat, nextNode: int)
      requires Valid()
      modifies Repr
      ensures Valid() && fresh(Repr - old(Repr))
      ensures routes == old(routes)[dest := nextNode]
    {
      var h := MakeHash(dest);
      assert Slot(h);
      ghost var es := chains[h];
      if hash[h] != null {
        var current := hash[h];
        ghost var i := 0;
        if current.dest == dest {
          Redirect(current, nextNode, h, 0);
          return;
        }
        while current.next != null
          invariant 0 <= i < |es| && current == es[i]
          invariant forall j :: 0 <= j <= i ==> es[j].dest != dest
          decreases |es| - i
        {
          current := current.next;
          i := i + 1;
          if current.dest == dest {
            Redirect(current, nextNode, h, i);
            return;
          }
        }
        LinkAfter(current, dest, nextNode);
      } else {
        StartChain(dest, nextNode);
      }
    }

    method Redirect(e: Entry, nextNode: int, ghost h: nat, ghost i: nat)
      requires Valid() && h < |chains| && i < |chains[h]| && e == chains[h][i]
      modifies e`nextNode, `routes
      ensures Valid()
      ensures routes == old(routes)[e.dest := nextNode]
    {
      assert Slot(h);
      forall g, k | 0 <= g < |chains| && 0 <= k < |chains[g]| && chains[g][k] == e ensures g == h && k == i {
        SlotsApart(g, h, k, i);
      }
      e.nextNode := nextNode;
      routes := routes[e.dest := nextNode];
      forall g | 0 <= g < |chains| ensures Slot(g) {
        assert old(Slot(g));
        forall d | d in routes && MakeHash(d) == g ensures Listed(chains[g], d) {
          assert d in old(routes);
        }
      }
    }

    /** The next hop for dest, or -1. */
    method GetNextNode(dest: nat) returns (r: int)
      requires Valid()
      ensures r == if dest in routes then routes[dest] else -1
    {
      var h := MakeHash(dest);
      assert Slot(h);
      ghost var es := chains[h];
      if hash[h] != null {
        var current := hash[h];
        ghost var i := 0;
        if current.dest == dest {
          return current.nextNode;
        }
        while current.next != null
          invariant 0 <= i < |es| && current == es[i]
          invariant forall j :: 0 <= j <= i ==> es[j].dest != dest
          decreases |es| - i
        {
          current := current.next;
          i := i + 1;
          if current.dest == dest {
            return current.nextNode;
          }
        }
        return -1;
      } else {
        return -1;
      }
    }
  }
}
