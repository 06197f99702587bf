/** A segment's whole way between two transport processes: over the local connection to its
    node's network process, hop by hop through overlay and network processes in a packet,
    and over the local connection at its destination. */
module Transit {
  import opened Basics
  import opened Segment
  import opened Framing
  import opened SegmentImage
  import opened Link
  import opened Layout

  const PKT_DATA: nat := 1488
  const PKT_HDR: nat := 12
  const PKT_SIZE: nat := PKT_HDR + PKT_DATA
  const PKT_DEST_AT: nat := ID_SIZE
  const PKT_LENGTH_AT: nat := 2 * ID_SIZE
  const PKT_TYPE_AT: nat := 2 * ID_SIZE + 2
  const SNP: nat := 2

  // ---------------------------------------------------------------- one connection

  /** What a receiver copies out of its buffer for a payload of this size; None when the
      frame ended early, and the copy would include bytes that were there before. */
  function Crossed(payload: seq<Byte>): Option<seq<Byte>> {
    var out := Feed(IDLE, Frame(payload)).1;
    if out != [] && |out[0]| >= |payload| then Some(out[0][..|payload|]) else None
  }

  /** No closing delimiter inside the payload, unless at its very end. */
  ghost predicate Whole(payload: seq<Byte>) {
    payload == [] || Clean(payload[..|payload| - 1])
  }

  /** A frame that ends with the payload's own last byte hands over exactly the payload. */
  lemma LateDelimiter(payload: seq<Byte>)
    requires Whole(payload) && !Clean(payload)
    ensures Feed(IDLE, Frame(payload)).1 == [payload]
  {
    var n := |payload| - 1;
    var init := payload[..n];
    assert payload == init + [payload[n]];
    CleanBody(init);
    FeedAppends(Rx(RECV, []), init, [payload[n]]);
    FeedOne(Feed(Rx(RECV, []), init).0, payload[n]);
    FrameResets(payload);
  }

  /** A payload crosses a connection whole, or not at all as far as the frame tells: whole
      if and only if no closing delimiter comes before its very end. */
  lemma CrossesWhole(payload: seq<Byte>)
    ensures Crossed(payload) == if Whole(payload) then Some(payload) else None
  {
    if Clean(payload) {
      FrameRoundTrip(payload);
      CleanPrefix(payload);
    } else if Whole(payload) {
      LateDelimiter(payload);
      assert payload[..|payload|] == payload;
    } else {
      CutShort(payload);
    }
  }

  lemma CleanPrefix(payload: seq<Byte>)
    requires Clean(payload)
    ensures Whole(payload) && (payload + [BANG, HASH])[..|payload|] == payload
  {
  }

  lemma CutShort(payload: seq<Byte>)
    requires !Whole(payload)
    ensures var out := Feed(IDLE, Frame(payload)).1; out != [] && |out[0]| < |payload|
  {
    var n := |payload| - 1;
    var init := payload[..n];
    assert payload == init + [payload[n]];
    DirtyBody(init);
    FeedAppends(Rx(RECV, []), init, [payload[n]]);
    FrameResets(payload);
  }

  // ---------------------------------------------------------------- packets

  /** A segment packet's header: node IDs, length and type. */
  function Header(src: seq<Byte>, dest: seq<Byte>, big: bool): (bytes: seq<Byte>)
    requires |src| == ID_SIZE && |dest| == ID_SIZE
    ensures |bytes| == PKT_HDR
  {
    src + dest + (Short(SEG_SIZE, big) + Short(SNP, big))
  }

  /** The packet that the network process builds around what its transport sent: the header,
      the segment, and zeros up to the packet's size. */
  function Encapsulate(src: seq<Byte>, arg: seq<Byte>, big: bool): (pkt: seq<Byte>)
    requires |src| == ID_SIZE && |arg| == ARG_SIZE
    ensures |pkt| == PKT_SIZE
  {
    Header(src, arg[..ID_SIZE], big) + (arg[ID_SIZE..] + seq(PKT_DATA - SEG_SIZE, _ => 0))
  }

  /** What the network process at the destination hands to its transport: the source's node
      ID and the segment. */
  function Decapsulate(pkt: seq<Byte>): seq<Byte>
    requires |pkt| == PKT_SIZE
  {
    pkt[..ID_SIZE] + pkt[PKT_HDR..PKT_HDR + SEG_SIZE]
  }

  lemma HeaderReads(src: seq<Byte>, dest: seq<Byte>, rest: seq<Byte>, big: bool)
    requires |src| == ID_SIZE && |dest| == ID_SIZE
    ensures var pkt := Header(src, dest, big) + rest;
            && pkt[..ID_SIZE] == src && pkt[PKT_DEST_AT..PKT_DEST_AT + ID_SIZE] == dest
            && pkt[PKT_LENGTH_AT..PKT_LENGTH_AT + 2] == Short(SEG_SIZE, big)
            && pkt[PKT_TYPE_AT..PKT_TYPE_AT + 2] == Short(SNP, big)
  {
    var size, kind := Short(SEG_SIZE, big), Short(SNP, big);
    MiddleIs(src, dest, size + kind + rest);
    MiddleIs(src + dest, size, kind + rest);
    MiddleIs(src + dest + size, kind, rest);
    var pkt := Header(src, dest, big) + rest;
    assert pkt == src + dest + (size + kind + rest);
    assert pkt == src + dest + size + (kind + rest);
    assert pkt == src + dest + size + kind + rest;
  }

  /** The packet's header reads back as the source's ID, the ID that the segment was
      addressed to, the segment's size and a segment packet's type; unpacking it gives the
      source's ID and the segment; the rest is zero. */
  lemma PacketCarries(src: seq<Byte>, arg: seq<Byte>, big: bool)
    requires |src| == ID_SIZE && |arg| == ARG_SIZE
    ensures var pkt := Encapsulate(src, arg, big);
            && Decapsulate(pkt) == src + arg[ID_SIZE..]
            && pkt[..ID_SIZE] == src && pkt[PKT_DEST_AT..PKT_DEST_AT + ID_SIZE] == arg[..ID_SIZE]
            && Value(pkt[PKT_LENGTH_AT..PKT_LENGTH_AT + 2], big) == SEG_SIZE
            && Value(pkt[PKT_TYPE_AT..PKT_TYPE_AT + 2], big) == SNP
            && forall i :: PKT_HDR + SEG_SIZE <= i < PKT_SIZE ==> pkt[i] == 0
  {
    var head, rest := Header(src, arg[..ID_SIZE], big), seq(PKT_DATA - SEG_SIZE, _ => 0);
    HeaderReads(src, arg[..ID_SIZE], arg[ID_SIZE..] + rest, big);
    MiddleIs(head, arg[ID_SIZE..], rest);
    assert Encapsulate(src, arg, big) == head + arg[ID_SIZE..] + rest;
  }

  /** From one network process to the next: with the next hop's ID to the overlay process,
      then the packet alone to the neighbour's and on to its network process. */
  function Hop(pkt: seq<Byte>, next: seq<Byte>): Option<seq<Byte>>
    requires |next| == ID_SIZE
  {
    match Crossed(next + pkt)
    case None => None
    case Some(arg) =>
      if |arg| < ID_SIZE then None else
      match Crossed(arg[ID_SIZE..])
      case None => None
      case Some(sent) => Crossed(sent)
  }

  /** Through the given next hops, one after the other. */
  function Relay(pkt: seq<Byte>, nexts: seq<seq<Byte>>): Option<seq<Byte>>
    requires forall i :: 0 <= i < |nexts| ==> |nexts[i]| == ID_SIZE
    decreases |nexts|
  {
    if nexts == [] then Some(pkt) else
    match Hop(pkt, nexts[0])
    case None => None
    case Some(got) => Relay(got, nexts[1..])
  }

  /** From snp_sendseg at one end to snp_recvseg at the other. */
  function Way(arg: seq<Byte>, src: seq<Byte>, nexts: seq<seq<Byte>>, big: bool): Option<seq<Byte>>
    requires |src| == ID_SIZE && |arg| == ARG_SIZE && forall i :: 0 <= i < |nexts| ==> |nexts[i]| == ID_SIZE
  {
    match Crossed(arg)
    case None => None
    case Some(got) =>
      if |got| != ARG_SIZE then None else
      match Relay(Encapsulate(src, got, big), nexts)
      case None => None
      case Some(pkt) => if |pkt| != PKT_SIZE then None else Crossed(Decapsulate(pkt))
  }

  // ---------------------------------------------------------------- the whole way

  lemma HopIsWhole(pkt: seq<Byte>, next: seq<Byte>)
    requires |next| == ID_SIZE
    ensures Hop(pkt, next) == if Whole(next + pkt) && Whole(pkt) then Some(pkt) else None
  {
    CrossesWhole(next + pkt);
    assert (next + pkt)[ID_SIZE..] == pkt;
    CrossesWhole(pkt);
  }

  /** The packet is whole in every frame of every hop. */
  ghost predicate ClearHops(pkt: seq<Byte>, nexts: seq<seq<Byte>>) {
    forall i :: 0 <= i < |nexts| ==> Whole(nexts[i] + pkt) && Whole(pkt)
  }

  lemma {:induction false} RelayIsWhole(pkt: seq<Byte>, nexts: seq<seq<Byte>>)
    requires forall i :: 0 <= i < |nexts| ==> |nexts[i]| == ID_SIZE
    decreases |nexts|
    ensures Relay(pkt, nexts) == if ClearHops(pkt, nexts) then Some(pkt) else None
  {
    if nexts != [] {
      HopIsWhole(pkt, nexts[0]);
      RelayIsWhole(pkt, nexts[1..]);
      assert nexts == [nexts[0]] + nexts[1..];
    }
  }

  /** Whole in every frame on the way. */
  ghost predicate ClearWay(arg: seq<Byte>, src: seq<Byte>, nexts: seq<seq<Byte>>, big: bool)
    requires |src| == ID_SIZE && |arg| == ARG_SIZE
  {
    Whole(arg) && ClearHops(Encapsulate(src, arg, big), nexts) && Whole(src + arg[ID_SIZE..])
  }

  /** Exactly what comes out at the other end: the source's ID and the segment as it was
      stamped, if and only if they are whole in every enclosing frame, over any number of
      hops. */
  lemma WayIsWhole(arg: seq<Byte>, src: seq<Byte>, nexts: seq<seq<Byte>>, big: bool)
    requires |src| == ID_SIZE && |arg| == ARG_SIZE && forall i :: 0 <= i < |nexts| ==> |nexts[i]| == ID_SIZE
    ensures Way(arg, src, nexts, big) ==
            if ClearWay(arg, src, nexts, big) then Some(src + arg[ID_SIZE..]) else None
  {
    CrossesWhole(arg);
    RelayIsWhole(Encapsulate(src, arg, big), nexts);
    PacketCarries(src, arg, big);
    CrossesWhole(src + arg[ID_SIZE..]);
  }

  lemma ReadIs(mem: seq<Byte>, node: seq<Byte>, seg: Image)
    requires |mem| == ARG_SIZE + 2 && |node| == ID_SIZE && mem[..ARG_SIZE] == node + seg
    ensures Read(mem) == Arg(node, seg)
  {
    assert mem[..ID_SIZE] == mem[..ARG_SIZE][..ID_SIZE] == node;
    assert mem[ID_SIZE..ARG_SIZE] == mem[..ARG_SIZE][ID_SIZE..] == seg;
  }

  lemma OneFrameIsRead(mem: seq<Byte>, frame: seq<Byte>, node: seq<Byte>, seg: Image)
    requires |mem| == ARG_SIZE + 2 && |node| == ID_SIZE && ARG_SIZE <= |frame| <= |mem|
    requires frame[..ARG_SIZE] == node + seg
    ensures Read(Memory(mem, [frame])) == Arg(node, seg)
  {
    MemoryOfOne(mem, frame);
    TakeOfAppend(frame, mem[|frame|..], ARG_SIZE);
    ReadIs(frame + mem[|frame|..], node, seg);
  }

  lemma MemoryOfOne(mem: seq<Byte>, frame: seq<Byte>)
    requires |frame| <= |mem|
    ensures Memory(mem, [frame]) == frame + mem[|frame|..]
  {
    MemoryAppends(mem, [], frame);
    assert [] + [frame] == [frame];
  }

  lemma TakeOfAppend(a: seq<Byte>, b: seq<Byte>, n: nat)
    requires n <= |a|
    ensures (a + b)[..n] == a[..n]
  {
  }

  lemma LastFrame(payload: seq<Byte>)
    requires Whole(payload)
    ensures var out := Feed(IDLE, Frame(payload)).1;
            |out| == 1 && |payload| <= |out[0]| <= |payload| + 2 && out[0][..|payload|] == payload
  {
    if Clean(payload) {
      FrameRoundTrip(payload);
    } else {
      LateDelimiter(payload);
    }
  }

  /** What the last receiver reads out of its buffer, whatever that held before. */
  lemma ImageIsRead(mem: seq<Byte>, src: seq<Byte>, sent: Image, out: seq<seq<Byte>>)
    requires |mem| == ARG_SIZE + 2 && |src| == ID_SIZE && Whole(src + sent)
    requires out == Feed(IDLE, Frame(src + sent)).1
    ensures |out| == 1 && |out[0]| <= |mem| && Read(Memory(mem, out)) == Arg(src, sent)
  {
    LastFrame(src + sent);
    OneFrameIsRead(mem, out[0], src, sent);
    assert out == [out[0]];
  }

  lemma ImageCrosses(dest: seq<Byte>, sent: Image, src: seq<Byte>, nexts: seq<seq<Byte>>, big: bool)
    requires |dest| == |src| == ID_SIZE && forall i :: 0 <= i < |nexts| ==> |nexts[i]| == ID_SIZE
    requires ClearWay(dest + sent, src, nexts, big)
    ensures Way(dest + sent, src, nexts, big) == Some(src + sent) && Whole(src + sent)
  {
    assert (dest + sent)[ID_SIZE..] == sent;
    WayIsWhole(dest + sent, src, nexts, big);
  }

  /** End to end: a segment that is whole on its way is received with its sender's ID as
      the loss simulator and the check decide, whatever the last buffer held before. */
  lemma SegmentArrives(x: Arg, src: seq<Byte>, nexts: seq<seq<Byte>>, mem: seq<Byte>, fate: Fate, big: bool)
    requires |x.node| == |src| == ID_SIZE && |mem| == ARG_SIZE + 2
    requires forall i :: 0 <= i < |nexts| ==> |nexts[i]| == ID_SIZE
    requires ClearWay(Payload(x, big), src, nexts, big)
    ensures Way(Payload(x, big), src, nexts, big) == Some(Payload(Arg(src, x.seg), big))
    ensures var out := Feed(IDLE, Frame(Payload(Arg(src, x.seg), big))).1;
            && |out| == 1 && |out[0]| <= |mem|
            && Taken(Read(Memory(mem, out)), fate, big) == Verdict(Arg(src, x.seg), fate, big)
    ensures forall i :: 0 <= i < SEG_SIZE && !(CHECKSUM_AT <= i < CHECKSUM_AT + 2) ==>
              Payload(Arg(src, x.seg), big)[ID_SIZE + i] == x.seg[i]
  {
    StampKeepsTheRest(x.seg, big);
    ImageCrosses(x.node, Stamped(x.seg, big), src, nexts, big);
    ImageIsRead(mem, src, Stamped(x.seg, big), Feed(IDLE, Frame(Payload(Arg(src, x.seg), big))).1);
    TakenIsVerdict(Arg(src, x.seg), fate, big);
  }
}
