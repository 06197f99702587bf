/** The byte stream that queued segments spell out, and the offsets between them. */
module Stream {
  import opened Segment
  import opened SendBuffer

  function Bytes(q: seq<Frag>): seq<Byte> {
    if q == [] then [] else Bytes(q[..|q| - 1]) + q[|q| - 1].data
  }

  /** Where segment i starts, or where the stream ends when i == |q|. */
  function Offset(q: seq<Frag>, i: nat): nat
    requires i <= |q|
  {
    |Bytes(q[..i])|
  }

  /** Sequence numbers are offsets: the segments follow each other without gap or overlap. */
  ghost predicate Contiguous(q: seq<Frag>) {
    forall i :: 0 <= i < |q| ==> InPlace(q, i)
  }

  ghost predicate InPlace(q: seq<Frag>, i: nat)
    requires i < |q|
  {
    q[i].seqNum == Offset(q, i)
  }

  /** a is a place between the first n segments. */
  ghost predicate Mark(q: seq<Frag>, n: nat, a: nat)
    requires n <= |q|
  {
    exists j :: 0 <= j <= n && a == Offset(q, j)
  }

  lemma BytesAppend(q: seq<Frag>, f: Frag)
    ensures Bytes(q + [f]) == Bytes(q) + f.data
  {
    assert (q + [f])[..|q|] == q;
  }

  lemma OffsetNext(q: seq<Frag>, i: nat)
    requires i < |q|
    ensures Offset(q, i + 1) == Offset(q, i) + |q[i].data|
    ensures Bytes(q[..i + 1]) == Bytes(q[..i]) + q[i].data
  {
    assert q[..i + 1] == q[..i] + [q[i]];
    BytesAppend(q[..i], q[i]);
  }

  lemma {:induction false} PrefixBytes(q: seq<Frag>, i: nat, j: nat)
    requires i <= j <= |q|
    ensures Offset(q, i) <= Offset(q, j)
    ensures Bytes(q[..i]) == Bytes(q[..j])[..Offset(q, i)]
    decreases j - i
  {
    if i < j {
      PrefixBytes(q, i, j - 1);
      OffsetNext(q, j - 1);
    }
  }

  lemma OffsetOfPrefix(q: seq<Frag>, r: seq<Frag>, i: nat)
    requires i <= |q| && q <= r
    ensures Offset(r, i) == Offset(q, i)
  {
    assert r[..i] == q[..i];
  }

  lemma ContiguousAppend(q: seq<Frag>, data: seq<Byte>)
    requires Contiguous(q)
    ensures Contiguous(q + [Frag(Offset(q, |q|), data)])
  {
    var r := q + [Frag(Offset(q, |q|), data)];
    forall i | 0 <= i < |r| ensures InPlace(r, i) {
      OffsetOfPrefix(q, r, i);
      assert i < |q| ==> InPlace(q, i);
    }
  }

  lemma StreamAppend(q: seq<Frag>, base: nat, data: seq<Byte>)
    requires Contiguous(q) && base <= |q|
    ensures var r := q + [Frag(|Bytes(q)|, data)];
            Contiguous(r) && Bytes(r) == Bytes(q) + data && r[base..] == q[base..] + [Frag(|Bytes(q)|, data)]
  {
    assert q[..|q|] == q;
    ContiguousAppend(q, data);
    BytesAppend(q, Frag(|Bytes(q)|, data));
  }

  lemma MarkOfPrefix(q: seq<Frag>, r: seq<Frag>, n: nat, m: nat, a: nat)
    requires q <= r && n <= m <= |r| && n <= |q| && Mark(q, n, a)
    ensures Mark(r, m, a)
  {
    var j :| 0 <= j <= n && a == Offset(q, j);
    OffsetOfPrefix(q, r, j);
  }

  /** A mark never falls inside a segment: a segment that starts before it ends by it. */
  lemma MarksSeparate(q: seq<Frag>, n: nat, a: nat, i: nat)
    requires Contiguous(q) && n <= |q| && Mark(q, n, a) && i < |q| && q[i].seqNum < a
    ensures i < n && Offset(q, i + 1) <= a
  {
    var j :| 0 <= j <= n && a == Offset(q, j);
    assert InPlace(q, i);
    if j <= i {
      PrefixBytes(q, j, i);
    } else {
      PrefixBytes(q, i + 1, j);
    }
  }

  /** An acknowledgement that marks a place between sent segments frees only sent ones,
      and frees none that reaches beyond it. */
  lemma AckStaysBehind(q: seq<Frag>, base: nat, sent: nat, ack: nat)
    requires Contiguous(q) && base + sent <= |q| && Mark(q, base + sent, ack)
    ensures var k := Acked(q[base..], ack);
            k <= sent && (k > 0 ==> Offset(q, base + k) <= ack)
  {
    var k := Acked(q[base..], ack);
    if k > 0 {
      assert q[base..][k - 1] == q[base + k - 1];
      MarksSeparate(q, base + sent, ack, base + k - 1);
    }
  }

  /** An acknowledgement frees every non-empty segment that ends by it. */
  lemma AckReaches(q: seq<Frag>, base: nat, end: nat, ack: nat)
    requires Contiguous(q) && base <= end <= |q| && Offset(q, end) <= ack
    requires forall i :: base <= i < end ==> q[i].data != []
    ensures base + Acked(q[base..], ack) >= end
  {
    var k := Acked(q[base..], ack);
    if base + k < end {
      assert q[base..][k] == q[base + k] && InPlace(q, base + k);
      OffsetNext(q, base + k);
      PrefixBytes(q, base + k + 1, end);
    }
  }

  /** Taking segment i where the stream stands at its start moves to its end. */
  lemma TakeAt(q: seq<Frag>, i: nat)
    requires Contiguous(q) && i < |q|
    ensures q[i].seqNum + |q[i].data| == Offset(q, i + 1) <= |Bytes(q)|
    ensures Bytes(q)[..q[i].seqNum] + q[i].data == Bytes(q)[..Offset(q, i + 1)]
  {
    assert q[..|q|] == q && InPlace(q, i);
    OffsetNext(q, i);
    PrefixBytes(q, i, |q|);
    PrefixBytes(q, i + 1, |q|);
  }
}
