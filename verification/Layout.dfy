/** A segment's fields in memory. All segments are cleared before their fields are set, so
    what is sent is a function of the fields; and what arrives, read field by field, is the
    segment that was sent, or DATA that has become another type. */
module Layout {
  import opened Basics
  import opened Segment
  import opened SegmentImage
  import opened Link

  // ---------------------------------------------------------------- numbers

  /** The number that bytes in the host's order stand for. */
  function Value(bytes: seq<Byte>, big: bool): nat {
    if bytes == [] then 0 else
    if big then 0x100 * Value(bytes[..|bytes| - 1], big) + bytes[|bytes| - 1]
    else 0x100 * Value(bytes[1..], big) + bytes[0]
  }

  /** An unsigned short in memory. */
  function Short(n: nat, big: bool): (bytes: seq<Byte>)
    requires n < 0x10000
    ensures |bytes| == 2 && Value(bytes, big) == n
  {
    var bytes: seq<Byte> := if big then [n / 0x100, n % 0x100] else [n % 0x100, n / 0x100];
    PairValue(bytes, big);
    bytes
  }

  /** An unsigned int in memory. */
  function Int(n: nat, big: bool): (bytes: seq<Byte>)
    requires n < WORD32
    ensures |bytes| == 4 && Value(bytes, big) == n
  {
    var high, low := Short(n / 0x10000, big), Short(n % 0x10000, big);
    HalvesValue(high, low, big);
    if big then high + low else low + high
  }

  lemma PairValue(bytes: seq<Byte>, big: bool)
    requires |bytes| == 2
    ensures var first: int, second: int := bytes[0], bytes[1];
            Value(bytes, big) == if big then 0x100 * first + second else first + 0x100 * second
  {
    var rest := if big then bytes[..1] else bytes[1..];
    assert |rest| == 1 && Value(rest, big) == rest[0];
  }

  lemma HalvesValue(high: seq<Byte>, low: seq<Byte>, big: bool)
    requires |high| == 2 && |low| == 2
    ensures Value(if big then high + low else low + high, big) == 0x10000 * Value(high, big) + Value(low, big)
  {
    PairValue(high, big);
    PairValue(low, big);
    if big {
      assert (high + low)[..3] == high + [low[0]] && (high + [low[0]])[..2] == high;
    } else {
      assert (low + high)[1..] == [low[1]] + high && ([low[1]] + high)[1..] == high;
    }
  }

  // ---------------------------------------------------------------- fields

  const SEQ_AT: nat := 8
  const LENGTH_AT: nat := 16

  /** The type numbers that the code defines. */
  function NumberOf(kind: Kind): nat
    requires !kind.OTHER?
  {
    match kind
    case SYN => 0
    case SYNACK => 1
    case FIN => 2
    case FINACK => 3
    case DATA => 4
    case DATAACK => 5
  }

  /** Every field fits, and only DATA has data. */
  predicate Fits(m: Segment) {
    && m.src.port < WORD32 && m.dst.port < WORD32 && m.seqNum < WORD32
    && !m.kind.OTHER? && |m.data| <= MAX_SEG_LEN && (m.data != [] ==> m.kind.DATA?)
  }

  /** Ports, sequence number and an unused number. */
  function Numbers(m: Segment, big: bool): (bytes: seq<Byte>)
    requires Fits(m)
    ensures |bytes| == LENGTH_AT
  {
    Int(m.src.port, big) + Int(m.dst.port, big) + (Int(m.seqNum, big) + Int(0, big))
  }

  /** Length, type, an unused window, and the checksum still cleared. */
  function Shorts(m: Segment, big: bool): (bytes: seq<Byte>)
    requires Fits(m)
    ensures |bytes| == HDR_SIZE - LENGTH_AT
  {
    Short(|m.data|, big) + Short(NumberOf(m.kind), big) + (Short(0, big) + Short(0, big))
  }

  /** A segment with its fields set. */
  function Laid(m: Segment, big: bool): Image
    requires Fits(m)
  {
    Numbers(m, big) + Shorts(m, big) + (m.data + seq(MAX_SEG_LEN - |m.data|, _ => 0))
  }

  /** What a receiver reads out of a segment; the nodes come from beside it. */
  function Parsed(s: Image, from: nat, to: nat, big: bool): Segment {
    Segment(Addr(from, Value(s[..4], big)), Addr(to, Value(s[4..8], big)), KindOf(TypeOf(s, big)),
            Value(s[SEQ_AT..SEQ_AT + 4], big),
            s[HDR_SIZE..HDR_SIZE + Min(Value(s[LENGTH_AT..LENGTH_AT + 2], big), MAX_SEG_LEN)])
  }

  lemma LaidFields(m: Segment, big: bool)
    requires Fits(m)
    ensures var s := Laid(m, big);
            && s[..4] == Int(m.src.port, big) && s[4..8] == Int(m.dst.port, big)
            && s[SEQ_AT..SEQ_AT + 4] == Int(m.seqNum, big)
            && s[LENGTH_AT..LENGTH_AT + 2] == Short(|m.data|, big)
            && s[TYPE_AT..TYPE_AT + 2] == Short(NumberOf(m.kind), big)
            && s[HDR_SIZE..HDR_SIZE + |m.data|] == m.data
            && forall i :: HDR_SIZE + |m.data| <= i < SEG_SIZE ==> s[i] == 0
  {
  }

  lemma LaidIsParsed(m: Segment, big: bool)
    requires Fits(m)
    ensures Parsed(Laid(m, big), m.src.node, m.dst.node, big) == m
    ensures TypeOf(Laid(m, big), big) == NumberOf(m.kind)
  {
    var s := Laid(m, big);
    LaidFields(m, big);
    PairValue(s[TYPE_AT..TYPE_AT + 2], big);
  }

  /** Segments that agree outside type and checksum differ at most in what they are. */
  lemma ParsedAlike(s: Image, t: Image, from: nat, to: nat, big: bool)
    requires forall i :: Kept(i) ==> s[i] == t[i]
    ensures Parsed(t, from, to, big) == Parsed(s, from, to, big).(kind := KindOf(TypeOf(t, big)))
  {
    assert s[..4] == t[..4] && s[4..8] == t[4..8];
    assert s[SEQ_AT..SEQ_AT + 4] == t[SEQ_AT..SEQ_AT + 4];
    assert s[LENGTH_AT..LENGTH_AT + 2] == t[LENGTH_AT..LENGTH_AT + 2];
    assert s[HDR_SIZE..] == t[HDR_SIZE..];
    var n := Min(Value(s[LENGTH_AT..LENGTH_AT + 2], big), MAX_SEG_LEN);
    assert s[HDR_SIZE..HDR_SIZE + n] == s[HDR_SIZE..][..n] && t[HDR_SIZE..HDR_SIZE + n] == t[HDR_SIZE..][..n];
  }

  /** What is sent is laid out so that the other end reads it field by field. */
  lemma StampedIsParsed(m: Segment, big: bool)
    requires Fits(m)
    ensures Parsed(Stamped(Laid(m, big), big), m.src.node, m.dst.node, big) == m
  {
    LaidIsParsed(m, big);
    StampKeepsTheRest(Laid(m, big), big);
    StampedKeepsData(Laid(m, big), big);
    ParsedAlike(Laid(m, big), Stamped(Laid(m, big), big), m.src.node, m.dst.node, big);
  }

  // ---------------------------------------------------------------- on the link

  /** The bit errors that the loss simulator can make of a segment: among the bytes of its
      header and of its data. */
  predicate Possible(m: Segment, fate: Fate) {
    fate.BitError? ==> fate.k < 8 * (HDR_SIZE + |m.data|)
  }

  /** Whatever the loss simulator does to a segment, the receiver reads what was sent, or
      nothing, or DATA as a SYN, a DATAACK or an undefined type: the losses and the hits
      that the connection's events stand for. */
  lemma ParsedIsSentOrHit(m: Segment, node: seq<Byte>, fate: Fate, big: bool)
    requires Fits(m) && Possible(m, fate)
    ensures var got := Verdict(Arg(node, Laid(m, big)), fate, big);
            && (fate.Intact? ==> got.Some?) && (fate.Lost? ==> got.None?)
            && (got.Some? ==>
                  && got.value.node == node
                  && var read := Parsed(got.value.seg, m.src.node, m.dst.node, big);
                     if fate.Intact? then read == m
                     else m.kind.DATA? && MayHit(read.kind) && read == m.(kind := read.kind))
  {
    var x := Arg(node, Laid(m, big));
    LaidFields(m, big);
    LaidIsParsed(m, big);
    WhatArrivesWasSentOrHit(x, fate, big);
    var got := Verdict(x, fate, big);
    if got.Some? {
      ParsedAlike(x.seg, got.value.seg, m.src.node, m.dst.node, big);
    }
  }
}
