/** The client's send buffer: fragmentation, the Go-Back-N window and its counter. First
    as pure steps on a value, then as the linked list whose methods refine them. */
module SendBuffer {
  import opened Basics
  import opened Segment

  /** A queued segment: where it starts in the stream, and its bytes. */
  datatype Frag = Frag(seqNum: nat, data: seq<Byte>)

  /** live is the buffer from its head; unsent counts the segments before the first
      unsent one, so unsent == |live| stands for the null pointer. */
  datatype Buf = Buf(live: seq<Frag>, unsent: nat, unAck: nat, nextSeq: nat)

  // ---------------------------------------------------------------- pure steps

  function Append(b: Buf, data: seq<Byte>): Buf {
    b.(live := b.live + [Frag(b.nextSeq, data)], nextSeq := (b.nextSeq + |data|) % WORD32)
  }

  /** How many segments one call of sendMaxSegments sends: its test is `<=`, so the
      window holds GBN_WINDOW + 1. */
  function Room(b: Buf): nat
    requires b.unsent <= |b.live|
  {
    Min(|b.live| - b.unsent, if b.unAck <= GBN_WINDOW then GBN_WINDOW + 1 - b.unAck else 0)
  }

  function SendMax(b: Buf): (Buf, seq<Frag>)
    requires b.unsent <= |b.live|
  {
    var k := Room(b);
    (b.(unsent := b.unsent + k, unAck := b.unAck + k), b.live[b.unsent..b.unsent + k])
  }

  /** How many segments an acknowledgement frees. */
  function Acked(live: seq<Frag>, ack: nat): (k: nat)
    ensures k <= |live|
    ensures forall i :: 0 <= i < k ==> live[i].seqNum < ack
    ensures k < |live| ==> live[k].seqNum >= ack
  {
    if live == [] || live[0].seqNum >= ack then 0 else 1 + Acked(live[1..], ack)
  }

  /** Frees them; the counter is decremented once for each and may wrap. */
  function FreeAcked(b: Buf, ack: nat): Buf
    requires Acked(b.live, ack) <= b.unsent
  {
    var k := Acked(b.live, ack);
    b.(live := b.live[k..], unsent := b.unsent - k, unAck := (b.unAck - k) % WORD32)
  }

  /** The whole answer to a DATAACK. */
  function HandleAck(b: Buf, ack: nat): (Buf, seq<Frag>)
    requires Acked(b.live, ack) <= b.unsent <= |b.live|
  {
    var f := FreeAcked(b, ack);
    if f.unsent < |f.live| then SendMax(f) else (f, [])
  }

  /** A timeout resends from the head while its count is at most the counter: one segment
      more than are counted as outstanding. */
  function Timeout(b: Buf): (Buf, seq<Frag>) {
    var k := Min(b.unAck + 1, |b.live|);
    (b.(unsent := k), b.live[..k])
  }

  function Clear(b: Buf): Buf {
    b.(live := [], unsent := 0)
  }

  /** Sending is maximal: it stops only at the end of the buffer or with more than
      GBN_WINDOW outstanding, and never takes the counter past GBN_WINDOW + 1. A first
      send of many segments therefore has eleven of them outstanding. */
  lemma SendMaxFills(b: Buf)
    requires b.unsent <= |b.live|
    ensures var (t, out) := SendMax(b);
            && t.live == b.live && t.nextSeq == b.nextSeq
            && out == b.live[b.unsent..t.unsent] && t.unAck == b.unAck + |out|
            && (t.unsent == |t.live| || t.unAck > GBN_WINDOW)
            && (out != [] ==> t.unAck <= GBN_WINDOW + 1)
            && (b.unAck == b.unsent == 0 && |b.live| > GBN_WINDOW ==> |out| == GBN_WINDOW + 1)
  {
  }

  /** What an acknowledgement does as a whole: it frees the longest prefix that starts below
      it, sends from the first unsent segment on, in order, and leaves something unsent only
      if more than GBN_WINDOW are then counted. */
  lemma HandleAckMeans(b: Buf, ack: nat)
    requires Acked(b.live, ack) <= b.unsent <= |b.live|
    ensures var (t, out) := HandleAck(b, ack);
            var k := |b.live| - |t.live|;
            && 0 <= k <= b.unsent && t.live == b.live[k..]
            && (forall i :: 0 <= i < k ==> b.live[i].seqNum < ack)
            && (t.live != [] ==> t.live[0].seqNum >= ack)
            && t.unsent == b.unsent - k + |out| <= |t.live|
            && out == t.live[b.unsent - k..t.unsent]
            && (t.unsent == |t.live| || t.unAck > GBN_WINDOW)
            && t.unAck == (b.unAck - k) % WORD32 + |out| && (out != [] ==> t.unAck <= GBN_WINDOW + 1)
            && t.nextSeq == b.nextSeq
  {
    var f := FreeAcked(b, ack);
    assert f.live[f.unsent..f.unsent] == [];
    SendMaxFills(f);
  }

  /** What a timeout does: it sends the buffer from its head, to its end or to one segment
      more than are counted, counts nothing and leaves the rest as the unsent part. */
  lemma TimeoutMeans(b: Buf)
    ensures var (t, out) := Timeout(b);
            && t == b.(unsent := |out|) && out <= b.live
            && |out| <= b.unAck + 1 && (|out| < |b.live| ==> |out| == b.unAck + 1)
  {
  }

  /** Freeing keeps the counter within one below the segments it counts; only freeing
      more than it counts, which is exactly one more, makes it wrap. */
  lemma CounterAfterFree(b: Buf, ack: nat)
    requires Acked(b.live, ack) <= b.unsent <= b.unAck + 1 <= WORD32
    ensures var k, f := Acked(b.live, ack), FreeAcked(b, ack);
            && f.unsent <= f.unAck + 1 <= WORD32
            && (k <= b.unAck ==> f.unAck == b.unAck - k)
            && (k > b.unAck ==> f.unAck == WORD32 - 1 && f.unsent == 0)
  {
  }

  /** How the counter comes to wrap: a timeout sends one segment more than it counts, and
      once that burst is acknowledged whole the counter is at its maximum and the window
      shut, so that only further timeouts send anything. */
  lemma AcknowledgedBurstWraps(b: Buf, ack: nat)
    requires b.unsent == b.unAck < |b.live| && Acked(b.live, ack) == b.unAck + 1
    ensures var (t, out) := Timeout(b);
            && |out| == b.unAck + 1 && t.unAck == b.unAck
            && FreeAcked(t, ack) == Buf(b.live[b.unAck + 1..], 0, WORD32 - 1, b.nextSeq)
            && SendMax(FreeAcked(t, ack)) == (FreeAcked(t, ack), [])
  {
    assert (b.unAck - (b.unAck + 1)) % WORD32 == WORD32 - 1;
  }

  // ---------------------------------------------------------------- fragmentation

  function FragmentCount(length: nat): nat {
    length / MAX_SEG_LEN + if length % MAX_SEG_LEN > 0 then 1 else 0
  }

  /** The pieces as the loop cuts them: full ones, then a last one of the remainder. */
  function Cut(data: seq<Byte>, count: nat, remainder: nat): seq<seq<Byte>>
    requires count > 0 ==> |data| >= (count - 1) * MAX_SEG_LEN + remainder
  {
    if count == 0 then []
    else if count > 1 then [data[..MAX_SEG_LEN]] + Cut(data[MAX_SEG_LEN..], count - 1, remainder)
    else [data[..remainder]]
  }

  function Fragments(data: seq<Byte>): seq<seq<Byte>> {
    Cut(data, FragmentCount(|data|), |data| % MAX_SEG_LEN)
  }

  lemma {:induction false} CutMeans(data: seq<Byte>, count: nat, remainder: nat)
    requires 0 < count && remainder < MAX_SEG_LEN && |data| >= (count - 1) * MAX_SEG_LEN + remainder
    ensures var parts := Cut(data, count, remainder);
            && |parts| == count && |parts[count - 1]| == remainder
            && (forall i :: 0 <= i < count - 1 ==> |parts[i]| == MAX_SEG_LEN)
            && Flatten(parts) == data[..(count - 1) * MAX_SEG_LEN + remainder]
  {
    if count == 1 {
      FlattenSingle(data[..remainder]);
    } else {
      var rest := data[MAX_SEG_LEN..];
      CutMeans(rest, count - 1, remainder);
      var parts := Cut(data, count, remainder);
      assert parts[1..] == Cut(rest, count - 1, remainder);
      assert Flatten(parts) == data[..MAX_SEG_LEN] + rest[..(count - 2) * MAX_SEG_LEN + remainder];
    }
  }

  /** The caller's bytes are queued whole unless their number is a positive multiple of
      200: then the last 200 are replaced by one empty segment. */
  lemma FragmentsMean(data: seq<Byte>)
    ensures var parts := Fragments(data);
            && (forall i :: 0 <= i < |parts| ==> |parts[i]| <= MAX_SEG_LEN)
            && (forall i :: 0 <= i < |parts| - 1 ==> |parts[i]| == MAX_SEG_LEN)
            && (if |data| > 0 && |data| % MAX_SEG_LEN == 0 then
                  && Flatten(parts) == data[..|data| - MAX_SEG_LEN]
                  && |parts| == |data| / MAX_SEG_LEN && parts[|parts| - 1] == []
                else
                  && Flatten(parts) == data
                  && forall i :: 0 <= i < |parts| ==> parts[i] != [])
  {
    var count, remainder := FragmentCount(|data|), |data| % MAX_SEG_LEN;
    if count > 0 {
      CutMeans(data, count, remainder);
    }
  }

  /** Fragmentation loses nothing if and only if the length is not a positive multiple
      of 200. */
  lemma FragmentsAreFaithful(data: seq<Byte>)
    ensures Flatten(Fragments(data)) == data <==> !(|data| > 0 && |data| % MAX_SEG_LEN == 0)
  {
    FragmentsMean(data);
  }

  function AppendAll(b: Buf, parts: seq<seq<Byte>>): Buf
    decreases |parts|
  {
    if parts == [] then b else AppendAll(Append(b, parts[0]), parts[1..])
  }

  /** The pieces, numbered one after the other from a first number. */
  function Numbered(parts: seq<seq<Byte>>, first: nat): seq<Frag>
    decreases |parts|
  {
    if parts == [] then [] else [Frag(first, parts[0])] + Numbered(parts[1..], (first + |parts[0]|) % WORD32)
  }

  /** The number that follows a piece of the buffer. */
  function NextAfter(live: seq<Frag>, first: nat): nat {
    if live == [] then first else (live[|live| - 1].seqNum + |live[|live| - 1].data|) % WORD32
  }

  /** Each piece is there as it is, and starts where the one before it ends. */
  lemma {:induction false} NumberedMeans(parts: seq<seq<Byte>>, first: nat)
    ensures var fs := Numbered(parts, first);
            && |fs| == |parts| && (forall i :: 0 <= i < |parts| ==> fs[i].data == parts[i])
            && (forall i :: 0 <= i < |fs| ==> fs[i].seqNum == NextAfter(fs[..i], first))
    decreases |parts|
  {
    if parts != [] {
      var fs, next := Numbered(parts, first), (first + |parts[0]|) % WORD32;
      NumberedMeans(parts[1..], next);
      var rest := Numbered(parts[1..], next);
      forall i | 0 <= i < |fs| ensures fs[i].seqNum == NextAfter(fs[..i], first) && fs[i].data == parts[i] {
        if i > 0 {
          assert fs[i] == rest[i - 1] && rest[i - 1].seqNum == NextAfter(rest[..i - 1], next);
          assert fs[..i] == [fs[0]] + rest[..i - 1];
        }
      }
    }
  }

  /** Queueing leaves what is there alone, puts the pieces behind it in order and numbered
      from the next number, and leaves all of them unsent. */
  lemma {:induction false} AppendAllMeans(b: Buf, parts: seq<seq<Byte>>)
    ensures var added := Numbered(parts, b.nextSeq);
            AppendAll(b, parts) == b.(live := b.live + added, nextSeq := NextAfter(added, b.nextSeq))
    decreases |parts|
  {
    if parts == [] {
      assert b.live + [] == b.live;
    } else {
      var first := Frag(b.nextSeq, parts[0]);
      var c := Append(b, parts[0]);
      AppendAllMeans(c, parts[1..]);
      assert b.live + [first] + Numbered(parts[1..], c.nextSeq) == b.live + ([first] + Numbered(parts[1..], c.nextSeq));
    }
  }

  /** What a send does to a buffer: it queues the pieces of the data as they are, and sends
      from the first unsent segment on, in order, until none is left or more than
      GBN_WINDOW are counted. */
  lemma SendMeans(b: Buf, data: seq<Byte>)
    requires b.unsent <= |b.live|
    ensures var a := AppendAll(b, Fragments(data));
            && a.unsent <= |a.live|
            && var (t, out) := SendMax(a);
               && b.live <= t.live && |t.live| == |b.live| + |Fragments(data)|
               && (forall i :: 0 <= i < |Fragments(data)| ==> t.live[|b.live| + i].data == Fragments(data)[i])
               && t.nextSeq == a.nextSeq && t.unAck == b.unAck + |out|
               && t.unsent == b.unsent + |out| <= |t.live| && out == t.live[b.unsent..t.unsent]
               && (t.unsent == |t.live| || t.unAck > GBN_WINDOW) && (out != [] ==> t.unAck <= GBN_WINDOW + 1)
  {
    var parts := Fragments(data);
    AppendAllMeans(b, parts);
    NumberedMeans(parts, b.nextSeq);
    SendMaxFills(AppendAll(b, parts));
  }

  // ---------------------------------------------------------------- the linked list

  class Node {
    const frag: Frag
    var next: Node?

    constructor (frag: Frag)
      ensures this.frag == frag && next == null
    {
      this.frag, next := frag, null;
    }
  }

  ghost function At(nodes: seq<Node>, i: int): Node? {
    if 0 <= i < |nodes| then nodes[i] else null
  }

  ghost predicate Linked(nodes: seq<Node>)
    reads nodes
  {
    && (forall i {:trigger nodes[i].next} :: 0 <= i < |nodes| ==> nodes[i].next == At(nodes, i + 1))
    && (forall i, j :: 0 <= i < j < |nodes| ==> nodes[i] != nodes[j])
  }

  lemma SuffixIsLinked(nodes: seq<Node>, k: nat)
    requires Linked(nodes) && k <= |nodes|
    ensures Linked(nodes[k..])
    ensures forall i :: i >= 0 ==> At(nodes[k..], i) == At(nodes, k + i)
    ensures Frags(nodes[k..]) == Frags(nodes)[k..]
  {
    var rest := nodes[k..];
    forall i | 0 <= i < |rest| ensures rest[i].next == At(rest, i + 1) {
      assert rest[i] == nodes[k + i];
      assert nodes[k + i].next == At(nodes, k + i + 1);
    }
  }

  class SendQueue {
    var head: Node?
    var firstUnsent: Node?
    var tail: Node?
    var unAck: nat
    var nextSeq: nat
    /** The list from its head, and how many of its nodes precede firstUnsent. */
    ghost var nodes: seq<Node>
    ghost var sent: nat

    ghost predicate Valid()
      reads this, nodes
    {
      && head == At(nodes, 0) && firstUnsent == At(nodes, sent) && sent <= |nodes|
      && (nodes != [] ==> tail == nodes[|nodes| - 1])
      && Linked(nodes) && unAck < WORD32
    }

    ghost function Value(): Buf
      reads this
    {
      Buf(Frags(nodes), sent, unAck, nextSeq)
    }

    constructor ()
      ensures Valid() && Value() == Buf([], 0, 0, 0)
    {
      head, firstUnsent, tail, unAck, nextSeq, nodes, sent := null, null, null, 0, 0, [], 0;
    }

    /** Queues one segment. */
    method Enqueue(data: seq<Byte>)
      requires Valid()
      modifies this, nodes
      ensures Valid() && Value() == Append(old(Value()), data)
      ensures forall i :: 0 <= i < |nodes| ==> nodes[i] in old(nodes) || fresh(nodes[i])
    {
      var current := new Node(Frag(nextSeq, data));
      nextSeq := (nextSeq + |data|) % WORD32;
      if head == null {
        head, tail, firstUnsent := current, current, current;
      } else {
        tail.next := current;
        tail := current;
        if firstUnsent == null {
          firstUnsent := current;
        }
      }
      nodes := nodes + [current];
    }

    /** A run of unsent segments that could not be longer is what the window allows. */
    static lemma SentIsMax(b: Buf, k: nat, out: seq<Frag>)
      requires b.unsent + k <= |b.live| && (k > 0 ==> b.unAck + k <= GBN_WINDOW + 1)
      requires b.unsent + k == |b.live| || b.unAck + k > GBN_WINDOW
      requires |out| == k && forall i :: 0 <= i < k ==> out[i] == b.live[b.unsent + i]
      ensures SendMax(b) == (b.(unsent := b.unsent + k, unAck := b.unAck + k), out)
    {
      assert out == b.live[b.unsent..b.unsent + k];
    }

    /** The sending loop: how many it sends, and the first segment that it does not. */
    method PushWindow() returns (out: seq<Frag>, current: Node?, ghost k: nat)
      requires Valid()
      modifies `unAck
      ensures unAck == old(unAck) + k < WORD32 && sent + k <= |nodes| && current == At(nodes, sent + k)
      ensures SendMax(old(Value())) == (old(Value()).(unsent := sent + k, unAck := unAck), out)
    {
      k := 0;
      current := firstUnsent;
      out := [];
      while unAck <= GBN_WINDOW && current != null
        invariant sent + k <= |nodes| && current == At(nodes, sent + k)
        invariant unAck == old(unAck) + k && (k > 0 ==> unAck <= GBN_WINDOW + 1)
        invariant |out| == k && forall i :: 0 <= i < k ==> out[i] == nodes[sent + i].frag
        decreases |nodes| - k
      {
        out := out + [current.frag];
        unAck := unAck + 1;
        current := current.next;
        k := k + 1;
      }
      SentIsMax(old(Value()), k, out);
    }

    /** Sends what the window allows. */
    method SendMaxSegments() returns (out: seq<Frag>)
      requires Valid()
      modifies this
      ensures Valid() && nodes == old(nodes)
      ensures Value() == SendMax(old(Value())).0 && out == SendMax(old(Value())).1
    {
      ghost var k;
      var current;
      out, current, k := PushWindow();
      firstUnsent := current;
      sent := sent + k;
    }

    /** Frees the segments an acknowledgement covers. All of them must have been sent, or
        firstUnsent would be left pointing into freed memory. */
    method Free(ack: nat)
      requires Valid() && Acked(Value().live, ack) <= sent
      modifies this
      ensures Valid() && Value() == FreeAcked(old(Value()), ack)
      ensures nodes == old(nodes)[Acked(old(Value()).live, ack)..]
    {
      ghost var k := Acked(Frags(nodes), ack);
      Advance(ack);
      Forget(k);
      assert Frags(nodes) == Frags(old(nodes))[k..];
    }

    /** Answers a DATAACK: frees, then sends if anything is still unsent. */
    method Acknowledge(ack: nat) returns (out: seq<Frag>)
      requires Valid() && Acked(Value().live, ack) <= sent
      modifies this
      ensures Valid()
      ensures Value() == HandleAck(old(Value()), ack).0 && out == HandleAck(old(Value()), ack).1
    {
      Free(ack);
      out := [];
      if firstUnsent != null {
        out := SendMaxSegments();
      }
    }

    /** Notes that the first k nodes are gone. */
    ghost method Forget(k: nat)
      requires Linked(nodes) && k <= sent <= |nodes| && head == At(nodes, k)
      requires firstUnsent == At(nodes, sent) && (nodes != [] ==> tail == nodes[|nodes| - 1]) && unAck < WORD32
      modifies `nodes, `sent
      ensures Valid() && nodes == old(nodes)[k..] && sent == old(sent) - k
      ensures Frags(nodes) == Frags(old(nodes))[k..]
    {
      SuffixIsLinked(nodes, k);
      ghost var rest := nodes[k..];
      assert head == At(rest, 0) && firstUnsent == At(rest, sent - k);
      assert rest != [] ==> rest[|rest| - 1] == nodes[|nodes| - 1];
      nodes, sent := rest, sent - k;
    }

    method Advance(ack: nat)
      requires Linked(nodes) && head == At(nodes, 0) && unAck < WORD32
      modifies `head, `unAck
      ensures var k := Acked(Frags(nodes), ack);
              head == At(nodes, k) && unAck == (old(unAck) - k) % WORD32
    {
      ghost var i := 0;
      while head != null && head.frag.seqNum < ack
        invariant 0 <= i <= Acked(Frags(nodes), ack) && head == At(nodes, i)
        invariant unAck == (old(unAck) - i) % WORD32
        decreases Acked(Frags(nodes), ack) - i
      {
        assert Frags(nodes)[i] == head.frag;
        head := head.next;
        Decrement(old(unAck) - i);
        unAck := (unAck - 1) % WORD32;
        i := i + 1;
      }
      assert i < |nodes| ==> Frags(nodes)[i] == nodes[i].frag;
    }

    /** Resends on a timeout and moves firstUnsent to where the resending stopped. */
    method Resend() returns (out: seq<Frag>)
      requires Valid()
      modifies this
      ensures Valid() && nodes == old(nodes)
      ensures Value() == Timeout(old(Value())).0 && out == Timeout(old(Value())).1
    {
      ghost var fs := Frags(nodes);
      var sentSegments: nat := 0;
      var current := head;
      out := [];
      while sentSegments <= unAck && current != null
        invariant sentSegments <= unAck + 1 && sentSegments <= |nodes|
        invariant current == At(nodes, sentSegments) && out == fs[..sentSegments]
        decreases |nodes| - sentSegments
      {
        out := out + [current.frag];
        sentSegments := sentSegments + 1;
        current := current.next;
      }
      firstUnsent := current;
      sent := sentSegments;
    }

    /** Disconnecting drops whatever is still queued. */
    method Drop()
      requires Valid()
      modifies this
      ensures Valid() && nodes == [] && Value() == Clear(old(Value()))
    {
      head, tail, firstUnsent, nodes, sent := null, null, null, [], 0;
    }

    /** Queues the caller's bytes segment by segment. */
    method QueueAll(data: seq<Byte>)
      requires Valid()
      modifies this, nodes
      ensures Valid() && Value() == AppendAll(old(Value()), Fragments(data))
    {
      var rest := data;
      var remainder := |data| % MAX_SEG_LEN;
      var count: nat := |data| / MAX_SEG_LEN;
      if remainder > 0 {
        count := count + 1;
      }
      while count > 0
        invariant (count > 0 ==> |rest| >= (count - 1) * MAX_SEG_LEN + remainder)
        invariant Valid() && forall i :: 0 <= i < |nodes| ==> nodes[i] in old(nodes) || fresh(nodes[i])
        invariant AppendAll(Value(), Cut(rest, count, remainder)) == AppendAll(old(Value()), Fragments(data))
        decreases count
      {
        ghost var before := Value();
        var piece := if count > 1 then rest[..MAX_SEG_LEN] else rest[..remainder];
        Enqueue(piece);
        CutStep(before, rest, count, remainder);
        rest := if count > 1 then rest[MAX_SEG_LEN..] else [];
        count := count - 1;
      }
    }
  }

  lemma CutStep(b: Buf, data: seq<Byte>, count: nat, remainder: nat)
    requires count > 0 && remainder < MAX_SEG_LEN && |data| >= (count - 1) * MAX_SEG_LEN + remainder
    ensures var piece := if count > 1 then data[..MAX_SEG_LEN] else data[..remainder];
            var rest := if count > 1 then data[MAX_SEG_LEN..] else [];
            AppendAll(b, Cut(data, count, remainder)) == AppendAll(Append(b, piece), Cut(rest, count - 1, remainder))
  {
    var parts := Cut(data, count, remainder);
    if count > 1 {
      assert parts[1..] == Cut(data[MAX_SEG_LEN..], count - 1, remainder);
    } else {
      assert parts[1..] == [];
    }
  }

  lemma Decrement(a: int)
    ensures (a % WORD32 - 1) % WORD32 == (a - 1) % WORD32
  {
  }

  ghost function Frags(nodes: seq<Node>): (r: seq<Frag>)
    ensures |r| == |nodes| && forall i :: 0 <= i < |r| ==> r[i] == nodes[i].frag
  {
    seq(|nodes|, i requires 0 <= i < |nodes| => nodes[i].frag)
  }
}
