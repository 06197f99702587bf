/** One segment over the link between two transport processes: stamped, framed, hit by the
    loss simulator and checked. What is received is what was sent, unless one bit of a
    DATA segment's type field was hit and its data happens to make up for it. */
module Link {
  import opened Basics
  import opened Segment
  import opened Framing
  import opened SegmentImage

  const ID_SIZE: nat := 4
  const ARG_SIZE: nat := ID_SIZE + SEG_SIZE

  /** A segment and, beside it, the bytes of a node ID. */
  datatype Arg = Arg(node: seq<Byte>, seg: Image)

  /** What goes between the delimiters. */
  function Payload(x: Arg, big: bool): seq<Byte> {
    x.node + Stamped(x.seg, big)
  }

  function Payloads(xs: seq<Arg>, big: bool): (r: seq<seq<Byte>>)
    ensures |r| == |xs| && forall i :: 0 <= i < |r| ==> r[i] == Payload(xs[i], big)
  {
    seq(|xs|, i requires 0 <= i < |xs| => Payload(xs[i], big))
  }

  /** The receive buffer after some frames: each is written from the buffer's base, over
      whatever was there. */
  function Memory(mem: seq<Byte>, handed: seq<seq<Byte>>): (r: seq<Byte>)
    requires forall i :: 0 <= i < |handed| ==> |handed[i]| <= |mem|
    ensures |r| == |mem|
  {
    if handed == [] then mem else
    var last := handed[|handed| - 1];
    last + Memory(mem, handed[..|handed| - 1])[|last|..]
  }

  function Read(mem: seq<Byte>): Arg
    requires |mem| >= ARG_SIZE
  {
    Arg(mem[..ID_SIZE], mem[ID_SIZE..ARG_SIZE])
  }

  /** A received segment after the loss simulator and the check. */
  function Taken(x: Arg, fate: Fate, big: bool): Option<Arg> {
    var seg := if fate.BitError? then Flip(x.seg, fate.k) else x.seg;
    if fate.Lost? || !Passes(seg, big) then None else Some(x.(seg := seg))
  }

  /** What the receiver makes of frame i. */
  function Outcome(mem: seq<Byte>, handed: seq<seq<Byte>>, i: nat, fates: nat -> Fate, big: bool): Option<Arg>
    requires |mem| == ARG_SIZE + 2 && i < |handed| && forall j :: 0 <= j < |handed| ==> |handed[j]| <= |mem|
  {
    Taken(Read(Memory(mem, handed[..i + 1])), fates(i), big)
  }

  // ---------------------------------------------------------------- the receiver

  lemma RestFits(stream: seq<Byte>, read: nat, size: nat)
    requires Fits(stream, size) && read <= |stream| && Feed(IDLE, stream[..read]).0 == IDLE
    ensures Fits(stream[read..], size)
  {
    var rest := stream[read..];
    forall k | 0 <= k < |rest| ensures |Feed(IDLE, rest[..k]).0.buf| < size + 2 {
      FeedAppends(IDLE, stream[..read], rest[..k]);
      assert stream[..read] + rest[..k] == stream[..read + k];
    }
  }

  /** The frames read so far, and the buffer as they left it. */
  ghost predicate Got(stream: seq<Byte>, read: nat, handed: seq<seq<Byte>>, mem: seq<Byte>, now: seq<Byte>) {
    && |mem| == ARG_SIZE + 2 && Fits(stream, ARG_SIZE) && read <= |stream|
    && Feed(IDLE, stream[..read]) == (IDLE, handed)
    && (forall i :: 0 <= i < |handed| ==> |handed[i]| <= |mem|) && now == Memory(mem, handed)
  }

  /** None of the first n frames came through. */
  ghost predicate Dropped(mem: seq<Byte>, handed: seq<seq<Byte>>, n: nat, fates: nat -> Fate, big: bool) {
    && |mem| == ARG_SIZE + 2 && n <= |handed| && (forall i :: 0 <= i < |handed| ==> |handed[i]| <= |mem|)
    && forall i :: 0 <= i < n ==> Outcome(mem, handed, i, fates, big) == None
  }

  lemma GotOneMore(stream: seq<Byte>, read: nat, handed: seq<seq<Byte>>, mem: seq<Byte>, was: seq<Byte>,
                   n: nat, frame: seq<Byte>)
    requires Got(stream, read, handed, mem, was) && n <= |stream| - read && |frame| <= |mem|
    requires Feed(IDLE, stream[read..][..n]) == (IDLE, [frame])
    ensures Got(stream, read + n, handed + [frame], mem, frame + was[|frame|..])
  {
    FeedAppends(IDLE, stream[..read], stream[read..][..n]);
    assert stream[..read] + stream[read..][..n] == stream[..read + n];
    MemoryAppends(mem, handed, frame);
  }

  lemma MemoryAppends(mem: seq<Byte>, handed: seq<seq<Byte>>, frame: seq<Byte>)
    requires |frame| <= |mem| && forall i :: 0 <= i < |handed| ==> |handed[i]| <= |mem|
    ensures Memory(mem, handed + [frame]) == frame + Memory(mem, handed)[|frame|..]
  {
    assert (handed + [frame])[..|handed|] == handed;
  }

  lemma GotBuffer(stream: seq<Byte>, read: nat, handed: seq<seq<Byte>>, mem: seq<Byte>, was: seq<Byte>,
                  n: nat, now: seq<Byte>, idx: nat)
    requires Got(stream, read, handed, mem, was) && n <= |stream| - read && idx <= |now| == |mem|
    requires now[idx..] == was[idx..] && Feed(IDLE, stream[read..][..n]) == (IDLE, [now[..idx]])
    ensures Got(stream, read + n, handed + [now[..idx]], mem, now)
    ensures (handed + [now[..idx]])[..|handed|] == handed
  {
    GotOneMore(stream, read, handed, mem, was, n, now[..idx]);
    assert now == now[..idx] + was[idx..];
  }

  lemma RanDry(stream: seq<Byte>, read: nat, handed: seq<seq<Byte>>)
    requires read <= |stream| && Feed(IDLE, stream[..read]) == (IDLE, handed) && Feed(IDLE, stream[read..]).1 == []
    ensures Feed(IDLE, stream).1 == handed
  {
    FeedAppends(IDLE, stream[..read], stream[read..]);
    assert stream[..read] + stream[read..] == stream && handed + [] == handed;
  }

  lemma DroppedSoFar(mem: seq<Byte>, handed: seq<seq<Byte>>, longer: seq<seq<Byte>>, fates: nat -> Fate, big: bool)
    requires Dropped(mem, handed, |handed|, fates, big)
    requires |longer| == |handed| + 1 && longer[..|handed|] == handed && |longer[|handed|]| <= |mem|
    ensures Dropped(mem, longer, |handed|, fates, big)
  {
    forall i | 0 <= i < |handed| ensures |longer[i]| <= |mem| {
      assert longer[i] == longer[..|handed|][i];
    }
    forall i | 0 <= i < |handed| ensures Outcome(mem, longer, i, fates, big) == None {
      assert longer[..i + 1] == handed[..i + 1];
      assert Outcome(mem, handed, i, fates, big) == None;
    }
  }

  lemma DroppedOneMore(mem: seq<Byte>, handed: seq<seq<Byte>>, n: nat, fates: nat -> Fate, big: bool)
    requires Dropped(mem, handed, n, fates, big) && n < |handed| && Outcome(mem, handed, n, fates, big) == None
    ensures Dropped(mem, handed, n + 1, fates, big)
  {
  }

  lemma FrameRead(stream: seq<Byte>, read: nat, handed: seq<seq<Byte>>, mem: seq<Byte>, was: seq<Byte>,
                  found: bool, n: nat, now: seq<Byte>, idx: nat)
    requires Got(stream, read, handed, mem, was) && n <= |stream| - read && idx <= |now| == |mem|
    requires now[idx..] == was[idx..]
    requires found ==> Feed(IDLE, stream[read..][..n]) == (IDLE, [now[..idx]])
    requires !found ==> Feed(IDLE, stream[read..]).1 == []
    ensures !found ==> Feed(IDLE, stream).1 == handed
    ensures found ==> Got(stream, read + n, handed + [now[..idx]], mem, now)
    ensures (handed + [now[..idx]])[..|handed|] == handed
  {
    if found {
      GotBuffer(stream, read, handed, mem, was, n, now, idx);
    } else {
      RanDry(stream, read, handed);
    }
  }

  /** Reads the frame that follows what was read before. */
  method ReceiveNext(stream: seq<Byte>, read: nat, buf: array<Byte>) returns (found: bool, n: nat, idx: nat)
    requires buf.Length == ARG_SIZE + 2 && Fits(stream, ARG_SIZE)
    requires read <= |stream| && Feed(IDLE, stream[..read]).0 == IDLE
    modifies buf
    ensures read + n <= |stream| && idx <= buf.Length && buf[..][idx..] == old(buf[..])[idx..]
    ensures found ==> Feed(IDLE, stream[read..][..n]) == (IDLE, [buf[..][..idx]]) && n > 0
    ensures !found ==> read + n == |stream| && Feed(IDLE, stream[read..]).1 == []
  {
    RestFits(stream, read, ARG_SIZE);
    found, n, idx := ReceiveFrame(stream[read..], buf);
    assert buf[..][..idx] == buf[..idx] && buf[..][idx..] == buf[idx..];
  }

  /** Reads one more frame into the buffer. */
  method NextFrame(stream: seq<Byte>, read: nat, buf: array<Byte>, ghost mem: seq<Byte>, ghost handed: seq<seq<Byte>>)
    returns (found: bool, next: nat, ghost longer: seq<seq<Byte>>)
    requires Got(stream, read, handed, mem, buf[..])
    modifies buf
    ensures !found ==> next == |stream| && Feed(IDLE, stream).1 == handed
    ensures found ==>
              && read < next && Got(stream, next, longer, mem, buf[..])
              && |longer| == |handed| + 1 && longer[..|handed|] == handed
  {
    ghost var was := buf[..];
    var n, idx;
    found, n, idx := ReceiveNext(stream, read, buf);
    ghost var now := buf[..];
    FrameRead(stream, read, handed, mem, was, found, n, now, idx);
    next, longer := read + n, handed + [now[..idx]];
  }

  /** Copies the segment out of the buffer, then loses, corrupts and checks it. */
  method TakeFrame(buf: array<Byte>, fate: Fate, big: bool) returns (r: Option<Arg>)
    requires buf.Length == ARG_SIZE + 2
    ensures r == Taken(Read(buf[..]), fate, big)
  {
    var seg := new Byte[SEG_SIZE](i requires 0 <= i < SEG_SIZE reads buf => buf[ID_SIZE + i]);
    assert seg[..] == buf[ID_SIZE..ARG_SIZE];
    var lost := Lose(seg, fate);
    if lost > 0 {
      return None;
    }
    var valid := Check(seg, big);
    if valid < 0 {
      return None;
    }
    r := Some(Arg(buf[..ID_SIZE], seg[..]));
  }

  /** One frame, if there is one, and what becomes of it. */
  method TryFrame(stream: seq<Byte>, read: nat, fate: Fate, big: bool, buf: array<Byte>,
                  ghost mem: seq<Byte>, ghost handed: seq<seq<Byte>>, ghost fates: nat -> Fate)
    returns (found: bool, r: Option<Arg>, next: nat, ghost longer: seq<seq<Byte>>)
    requires Got(stream, read, handed, mem, buf[..]) && Dropped(mem, handed, |handed|, fates, big)
    requires fate == fates(|handed|)
    modifies buf
    ensures !found ==> next == |stream| && Feed(IDLE, stream).1 == handed
    ensures found ==>
              && read < next && Got(stream, next, longer, mem, buf[..]) && |longer| == |handed| + 1
              && Dropped(mem, longer, |handed|, fates, big) && r == Outcome(mem, longer, |handed|, fates, big)
  {
    r := None;
    found, next, longer := NextFrame(stream, read, buf, mem, handed);
    if found {
      DroppedSoFar(mem, handed, longer, fates, big);
      r := TakeFrame(buf, fate, big);
      assert longer[..|longer|] == longer;
    }
  }

  /** Reads frames until one survives; None when the stream runs dry first. */
  method ReceiveSegment(stream: seq<Byte>, fates: nat -> Fate, big: bool, buf: array<Byte>)
    returns (r: Option<Arg>, read: nat)
    requires buf.Length == ARG_SIZE + 2 && Fits(stream, ARG_SIZE)
    modifies buf
    ensures read <= |stream|
    ensures var handed, mem := Feed(IDLE, stream[..read]).1, old(buf[..]);
            match r
            case None => read == |stream| && Dropped(mem, handed, |handed|, fates, big)
            case Some(_) =>
              && handed != [] && Dropped(mem, handed, |handed| - 1, fates, big)
              && Outcome(mem, handed, |handed| - 1, fates, big) == r
  {
    ghost var mem, handed: seq<seq<Byte>> := buf[..], [];
    read := 0;
    var frames: nat := 0;
    while true
      invariant Got(stream, read, handed, mem, buf[..]) && frames == |handed|
      invariant Dropped(mem, handed, frames, fates, big)
      decreases |stream| - read
    {
      var found, next;
      ghost var longer;
      found, r, next, longer := TryFrame(stream, read, fates(frames), big, buf, mem, handed, fates);
      if !found {
        assert stream[..next] == stream;
        return None, next;
      }
      read, handed := next, longer;
      if r.Some? {
        return;
      }
      DroppedOneMore(mem, longer, frames, fates, big);
      frames := frames + 1;
    }
  }

  // ---------------------------------------------------------------- end to end

  lemma {:induction false} CleanFramesAreHanded(payloads: seq<seq<Byte>>)
    requires forall i :: 0 <= i < |payloads| ==> Clean(payloads[i])
    ensures |Handed(payloads)| == |payloads|
    ensures forall i :: 0 <= i < |payloads| ==> Handed(payloads)[i] == payloads[i] + [BANG, HASH]
  {
    if payloads != [] {
      FrameRoundTrip(payloads[0]);
      CleanFramesAreHanded(payloads[1..]);
    }
  }

  /** What the receiver should make of a sent segment, given its fate alone. */
  function Verdict(x: Arg, fate: Fate, big: bool): Option<Arg> {
    var sent := Stamped(x.seg, big);
    match fate
    case Intact => Some(x.(seg := sent))
    case Lost => None
    case BitError(k) => if Undetected(sent, k, big) then Some(x.(seg := Flip(sent, k))) else None
  }

  lemma TakenIsVerdict(x: Arg, fate: Fate, big: bool)
    ensures Taken(x.(seg := Stamped(x.seg, big)), fate, big) == Verdict(x, fate, big)
  {
    StampedPasses(x.seg, big);
    if fate.BitError? {
      FlipVerdict(Stamped(x.seg, big), fate.k, big);
    }
  }

  /** A whole payload and its closing delimiter fill the buffer, whatever it held. */
  lemma PayloadIsRead(mem: seq<Byte>, handed: seq<seq<Byte>>, i: nat, x: Arg, big: bool)
    requires |mem| == ARG_SIZE + 2 && i < |handed| && forall j :: 0 <= j < |handed| ==> |handed[j]| <= |mem|
    requires |x.node| == ID_SIZE && handed[i] == Payload(x, big) + [BANG, HASH]
    ensures Read(Memory(mem, handed[..i + 1])) == x.(seg := Stamped(x.seg, big))
  {
    TakeOneMore(handed, i);
    MemoryIsFilled(mem, handed[..i], handed[i]);
    ReadPayload(x, big);
  }

  lemma MemoryIsFilled(mem: seq<Byte>, handed: seq<seq<Byte>>, frame: seq<Byte>)
    requires |frame| == |mem| && forall i :: 0 <= i < |handed| ==> |handed[i]| <= |mem|
    ensures Memory(mem, handed + [frame]) == frame
  {
    MemoryAppends(mem, handed, frame);
  }

  lemma ReadPayload(x: Arg, big: bool)
    requires |x.node| == ID_SIZE
    ensures Read(Payload(x, big) + [BANG, HASH]) == x.(seg := Stamped(x.seg, big))
  {
    var frame := Payload(x, big) + [BANG, HASH];
    assert frame[..ID_SIZE] == x.node && frame[ID_SIZE..ARG_SIZE] == Stamped(x.seg, big);
  }

  /** Segment by segment, what is received depends only on what was sent and on its own
      fate: not on other segments, and not on what the buffer held. */
  lemma ArrivalsAreDecided(xs: seq<Arg>, mem: seq<Byte>, fates: nat -> Fate, big: bool)
    requires |mem| == ARG_SIZE + 2
    requires forall i :: 0 <= i < |xs| ==> |xs[i].node| == ID_SIZE && Clean(Payload(xs[i], big))
    ensures var handed := Feed(IDLE, Frames(Payloads(xs, big))).1;
            && |handed| == |xs| && (forall i :: 0 <= i < |handed| ==> |handed[i]| == |mem|)
            && (forall i :: 0 <= i < |xs| ==> Outcome(mem, handed, i, fates, big) == Verdict(xs[i], fates(i), big))
  {
    var payloads := Payloads(xs, big);
    FramesAreIsolated(payloads);
    CleanFramesAreHanded(payloads);
    var handed := Handed(payloads);
    forall i | 0 <= i < |xs| ensures Outcome(mem, handed, i, fates, big) == Verdict(xs[i], fates(i), big) {
      PayloadIsRead(mem, handed, i, xs[i], big);
      TakenIsVerdict(xs[i], fates(i), big);
    }
  }

  /** A segment as the code builds it: only DATA has anything behind its header. */
  predicate AsBuilt(s: Image, big: bool) {
    TypeOf(s, big) == DATA_TYPE || forall i :: HDR_SIZE <= i < SEG_SIZE ==> s[i] == 0
  }

  /** A bit error among the bytes in use that spares the type field of DATA. */
  predicate Harmless(s: Image, fate: Fate, big: bool) {
    fate.BitError? ==> if TypeOf(s, big) == DATA_TYPE then !InType(fate.k) else fate.k < 8 * HDR_SIZE
  }

  /** Then nothing but what was sent is ever received. */
  lemma WhatArrivesWasSent(x: Arg, fate: Fate, big: bool)
    requires AsBuilt(x.seg, big) && Harmless(x.seg, fate, big)
    ensures Verdict(x, fate, big) == if fate.Intact? then Some(x.(seg := Stamped(x.seg, big))) else None
    ensures forall i :: 0 <= i < SEG_SIZE && !(CHECKSUM_AT <= i < CHECKSUM_AT + 2) ==>
              Stamped(x.seg, big)[i] == x.seg[i]
  {
    StampKeepsTheRest(x.seg, big);
    if fate.BitError? {
      StampedPasses(x.seg, big);
      FlipVerdict(Stamped(x.seg, big), fate.k, big);
      StampedKeepsData(x.seg, big);
      if TypeOf(x.seg, big) == DATA_TYPE {
        FlipOutsideTypeIsCaught(x.seg, fate.k, big);
      } else {
        FlippedControlIsCaught(x.seg, fate.k, big);
      }
    }
  }

  /** A bit error among the bytes that the code uses: all of DATA, else the header. */
  predicate InUse(s: Image, fate: Fate, big: bool) {
    fate.BitError? ==> TypeOf(s, big) == DATA_TYPE || fate.k < 8 * HDR_SIZE
  }

  /** Bytes that a flipped type bit and stamping leave alone. */
  predicate Kept(i: int) {
    0 <= i < SEG_SIZE && !(TYPE_AT <= i < TYPE_AT + 2) && !(CHECKSUM_AT <= i < CHECKSUM_AT + 2)
  }

  /** Whatever happens to it: intact, it is received as it was stamped, which is the segment
      itself but for its checksum; lost, it is not received; and with such an error it is
      not received either, or it is DATA that has become a SYN, a DATAACK or an undefined
      type, changed in one byte of its type field and nowhere else. */
  lemma WhatArrivesWasSentOrHit(x: Arg, fate: Fate, big: bool)
    requires AsBuilt(x.seg, big) && InUse(x.seg, fate, big)
    ensures var sent, got := Stamped(x.seg, big), Verdict(x, fate, big);
            match fate
            case Intact =>
              && got == Some(x.(seg := sent)) && TypeOf(sent, big) == TypeOf(x.seg, big)
              && forall i :: Kept(i) ==> sent[i] == x.seg[i]
            case Lost => got == None
            case BitError(k) =>
              got.Some? ==>
                && TypeOf(x.seg, big) == DATA_TYPE && InType(k) && got.value.node == x.node
                && (forall i :: Kept(i) ==> got.value.seg[i] == x.seg[i])
                && (forall i :: 0 <= i < SEG_SIZE ==> (got.value.seg[i] != sent[i] <==> i == k / 8))
                && MayHit(KindOf(TypeOf(got.value.seg, big)))
  {
    StampKeepsTheRest(x.seg, big);
    StampedKeepsData(x.seg, big);
    if Harmless(x.seg, fate, big) {
      WhatArrivesWasSent(x, fate, big);
    } else {
      HitTypes(Stamped(x.seg, big), fate.k, big);
    }
  }

  /** And such DATA does arrive: on a host of either byte order any DATA segment whose data
      sums to 1 is received as a DATAACK when the lowest bit of its type is hit. */
  lemma HitArrives(x: Arg, big: bool)
    requires TypeOf(x.seg, big) == DATA_TYPE && DataSum(x.seg, big) == 1
    ensures var got := Verdict(x, BitError(LowestTypeBit(big)), big);
            got.Some? && got.value.node == x.node && KindOf(TypeOf(got.value.seg, big)) == DATAACK
  {
    StampedPasses(x.seg, big);
    FlippedDataCanPass(x.seg, big);
    FlipVerdict(Stamped(x.seg, big), LowestTypeBit(big), big);
  }
}
