/** The delimiters put around fixed-size payloads on a byte stream, without escaping, and
    the four-state machine that takes them off again. */
module Framing {
  import opened Basics
  import opened Segment

  const BANG: Byte := 33
  const AMP: Byte := 38
  const HASH: Byte := 35

  datatype Phase = START1 | START2 | RECV | STOP1

  /** Where the machine is, and the bytes written to its buffer so far. */
  datatype Rx = Rx(phase: Phase, buf: seq<Byte>)

  const IDLE := Rx(START1, [])

  /** One byte through the machine. A frame that ends gives what was written, its closing
      delimiter included. */
  function Step(r: Rx, c: Byte): (Rx, seq<seq<Byte>>) {
    match r.phase
    case START1 => (r.(phase := if c == BANG then START2 else START1), [])
    case START2 => (r.(phase := if c == AMP then RECV else START1), [])
    case RECV => (Rx(if c == BANG then STOP1 else RECV, r.buf + [c]), [])
    case STOP1 =>
      if c == HASH then (IDLE, [r.buf + [c]])
      else (Rx(if c == BANG then STOP1 else RECV, r.buf + [c]), [])
  }

  function Feed(r: Rx, bytes: seq<Byte>): (Rx, seq<seq<Byte>>)
    decreases |bytes|
  {
    if bytes == [] then (r, []) else
    var (r1, out1) := Step(r, bytes[0]);
    var (r2, out2) := Feed(r1, bytes[1..]);
    (r2, out1 + out2)
  }

  function Frame(payload: seq<Byte>): seq<Byte> {
    [BANG, AMP] + payload + [BANG, HASH]
  }

  function Frames(payloads: seq<seq<Byte>>): seq<Byte> {
    if payloads == [] then [] else Frame(payloads[0]) + Frames(payloads[1..])
  }

  /** The payload does not itself contain the closing delimiter. */
  ghost predicate Clean(payload: seq<Byte>) {
    forall i :: 0 < i < |payload| ==> !(payload[i - 1] == BANG && payload[i] == HASH)
  }

  /** The buffer is in use only inside a frame, where it ends in ! exactly in STOP1. */
  ghost predicate Sane(r: Rx) {
    && (r.phase.START1? || r.phase.START2? ==> r.buf == [])
    && (r.phase.STOP1? ==> r.buf != [] && r.buf[|r.buf| - 1] == BANG)
  }

  lemma {:induction false} FeedAppends(r: Rx, a: seq<Byte>, b: seq<Byte>)
    ensures var (r1, out1) := Feed(r, a);
            var (r2, out2) := Feed(r1, b);
            Feed(r, a + b) == (r2, out1 + out2)
    decreases |a|
  {
    if a == [] {
      assert a + b == b;
      assert [] + Feed(r, b).1 == Feed(r, b).1;
    } else {
      var (r1, out1) := Step(r, a[0]);
      FeedAppends(r1, a[1..], b);
      assert (a + b)[1..] == a[1..] + b;
      var (r2, out2) := Feed(r1, a[1..]);
      var (r3, out3) := Feed(r2, b);
      assert out1 + (out2 + out3) == out1 + out2 + out3;
    }
  }

  lemma FeedOne(r: Rx, c: Byte)
    ensures Feed(r, [c]) == Step(r, c)
  {
    assert [c][1..] == [];
    assert Step(r, c).1 + [] == Step(r, c).1;
  }

  /** The opening delimiter starts a buffer. */
  lemma Opening()
    ensures Feed(IDLE, [BANG, AMP]) == (Rx(RECV, []), [])
  {
    FeedOne(IDLE, BANG);
    FeedOne(Rx(START2, []), AMP);
    FeedAppends(IDLE, [BANG], [AMP]);
    assert [BANG] + [AMP] == [BANG, AMP];
  }

  /** Outside a frame, bytes without ! are skipped, and so is ! with whatever follows it, if
      that is not &; a second ! included. */
  lemma {:induction false} JunkIsSkipped(junk: seq<Byte>)
    requires BANG !in junk
    ensures Feed(IDLE, junk) == (IDLE, [])
    ensures forall c: Byte :: c != AMP ==> Feed(IDLE, junk + [BANG, c]) == (IDLE, [])
    decreases |junk|
  {
    if junk == [] {
      forall c: Byte | c != AMP ensures Feed(IDLE, junk + [BANG, c]) == (IDLE, []) {
        FeedOne(IDLE, BANG);
        FeedOne(Rx(START2, []), c);
        FeedAppends(IDLE, [BANG], [c]);
        assert [BANG] + [c] == junk + [BANG, c];
      }
    } else {
      assert junk[0] in junk;
      JunkIsSkipped(junk[1..]);
      assert Step(IDLE, junk[0]).1 + Feed(IDLE, junk[1..]).1 == [];
      forall c: Byte | c != AMP ensures Feed(IDLE, junk + [BANG, c]) == (IDLE, []) {
        assert (junk + [BANG, c])[1..] == junk[1..] + [BANG, c];
      }
    }
  }

  /** From anywhere, the closing delimiter leads back to the start; inside a frame it
      hands over the buffer. */
  lemma Closing(r: Rx)
    requires Sane(r)
    ensures Feed(r, [BANG, HASH]) ==
            (IDLE, if r.phase.RECV? || r.phase.STOP1? then [r.buf + [BANG, HASH]] else [])
  {
    var (r1, out1) := Step(r, BANG);
    FeedOne(r, BANG);
    FeedOne(r1, HASH);
    FeedAppends(r, [BANG], [HASH]);
    assert [BANG] + [HASH] == [BANG, HASH];
    assert r.buf + [BANG] + [HASH] == r.buf + [BANG, HASH];
    assert out1 == [] && [] + Step(r1, HASH).1 == Step(r1, HASH).1;
  }

  /** However the bytes look, the buffer grows by at most one for each, and so does what
      a frame hands over. */
  lemma {:induction false} FeedIsBounded(r: Rx, bytes: seq<Byte>)
    requires Sane(r)
    ensures var (t, out) := Feed(r, bytes);
            && Sane(t) && |t.buf| <= |r.buf| + |bytes|
            && forall i :: 0 <= i < |out| ==> |out[i]| <= |r.buf| + |bytes|
    decreases |bytes|
  {
    if bytes != [] {
      FeedIsBounded(Step(r, bytes[0]).0, bytes[1..]);
    }
  }

  /** Back at the start at every frame boundary, whatever the payload holds. */
  lemma FrameResets(payload: seq<Byte>)
    ensures Feed(IDLE, Frame(payload)).0 == IDLE
    ensures var (r, out) := Feed(Rx(RECV, []), payload);
            Feed(IDLE, Frame(payload)).1 ==
            out + (if r.phase.RECV? || r.phase.STOP1? then [r.buf + [BANG, HASH]] else [])
  {
    var (r, out) := Feed(Rx(RECV, []), payload);
    Opening();
    FeedIsBounded(Rx(RECV, []), payload);
    Closing(r);
    FeedAppends(IDLE, [BANG, AMP] + payload, [BANG, HASH]);
    FeedAppends(IDLE, [BANG, AMP], payload);
    assert [] + out == out;
  }

  /** A clean body is written byte for byte and nothing is handed over before its end. */
  lemma {:induction false} CleanBody(payload: seq<Byte>)
    requires Clean(payload)
    ensures var n := |payload|;
            Feed(Rx(RECV, []), payload) ==
            (Rx(if n > 0 && payload[n - 1] == BANG then STOP1 else RECV, payload), [])
    decreases |payload|
  {
    if payload != [] {
      var n := |payload| - 1;
      var init := payload[..n];
      CleanBody(init);
      FeedAppends(Rx(RECV, []), init, [payload[n]]);
      FeedOne(Feed(Rx(RECV, []), init).0, payload[n]);
      assert payload == init + [payload[n]];
    }
  }

  /** A body that is not clean hands over something too short before its end. */
  lemma {:induction false} DirtyBody(payload: seq<Byte>)
    requires !Clean(payload)
    ensures var out := Feed(Rx(RECV, []), payload).1;
            out != [] && |out[0]| <= |payload|
    decreases |payload|
  {
    var n := |payload| - 1;
    var init := payload[..n];
    assert payload == init + [payload[n]];
    FeedAppends(Rx(RECV, []), init, [payload[n]]);
    if Clean(init) {
      CleanBody(init);
      FeedOne(Feed(Rx(RECV, []), init).0, payload[n]);
    } else {
      DirtyBody(init);
    }
  }

  /** A frame comes out as its own payload, exactly once, if and only if the payload does
      not contain the closing delimiter. Ending in ! does no harm. */
  lemma FrameRoundTrip(payload: seq<Byte>)
    ensures Feed(IDLE, Frame(payload)).1 == [payload + [BANG, HASH]] <==> Clean(payload)
  {
    FrameResets(payload);
    if Clean(payload) {
      CleanBody(payload);
    } else {
      DirtyBody(payload);
      var out := Feed(Rx(RECV, []), payload).1;
      assert Feed(IDLE, Frame(payload)).1[0] == out[0];
    }
  }

  /** Noise without ! before a frame does it no harm. A single ! right before it hides the
      whole frame, if the payload has no !: the second ! is taken for a failed opening. */
  lemma NoiseBeforeFrame(junk: seq<Byte>, payload: seq<Byte>)
    requires BANG !in junk
    ensures Feed(IDLE, junk + Frame(payload)) == Feed(IDLE, Frame(payload))
    ensures BANG !in payload ==> Feed(IDLE, junk + [BANG] + Frame(payload)) == (IDLE, [])
  {
    JunkIsSkipped(junk);
    FeedAppends(IDLE, junk, Frame(payload));
    assert [] + Feed(IDLE, Frame(payload)).1 == Feed(IDLE, Frame(payload)).1;
    if BANG !in payload {
      var rest := [AMP] + payload + [BANG, HASH];
      JunkIsSkipped([AMP] + payload);
      FeedAppends(IDLE, junk + [BANG, BANG], rest);
      assert junk + [BANG, BANG] + rest == junk + [BANG] + Frame(payload);
    }
  }

  /** Everything the frames of a stream hand over, frame by frame. */
  function Handed(payloads: seq<seq<Byte>>): seq<seq<Byte>> {
    if payloads == [] then [] else Feed(IDLE, Frame(payloads[0])).1 + Handed(payloads[1..])
  }

  /** Isolation: no frame's content affects what another hands over. */
  lemma {:induction false} FramesAreIsolated(payloads: seq<seq<Byte>>)
    ensures Feed(IDLE, Frames(payloads)) == (IDLE, Handed(payloads))
  {
    if payloads != [] {
      FramesAreIsolated(payloads[1..]);
      FrameResets(payloads[0]);
      FeedAppends(IDLE, Frame(payloads[0]), Frames(payloads[1..]));
    }
  }

  lemma HandedFirst(p: seq<Byte>, after: seq<seq<Byte>>)
    ensures Handed([p] + after) == Feed(IDLE, Frame(p)).1 + Handed(after)
  {
    assert ([p] + after)[1..] == after;
  }

  lemma HandedClean(p: seq<Byte>, after: seq<seq<Byte>>)
    requires Clean(p)
    ensures Handed([p] + after) == [p + [BANG, HASH]] + Handed(after)
  {
    FrameRoundTrip(p);
    HandedFirst(p, after);
  }

  lemma {:induction false} HandedSplits(a: seq<seq<Byte>>, b: seq<seq<Byte>>)
    ensures Handed(a + b) == Handed(a) + Handed(b)
  {
    if a == [] {
      assert a + b == b;
    } else {
      var rest := a[1..];
      HandedSplits(rest, b);
      HandedFirst(a[0], rest);
      HandedFirst(a[0], rest + b);
      assert a == [a[0]] + rest && a + b == [a[0]] + (rest + b);
      Regroup(Feed(IDLE, Frame(a[0])).1, Handed(rest), Handed(b));
    }
  }

  lemma HandedAround(before: seq<seq<Byte>>, p: seq<Byte>, after: seq<seq<Byte>>)
    requires Clean(p)
    ensures Handed(before + ([p] + after)) == Handed(before) + [p + [BANG, HASH]] + Handed(after)
  {
    HandedSplits(before, [p] + after);
    HandedClean(p, after);
    Regroup(Handed(before), [p + [BANG, HASH]], Handed(after));
  }

  /** A clean payload comes out whole, once and in its place, whatever the frames before
      and after it hold. */
  lemma CleanPayloadSurvives(payloads: seq<seq<Byte>>, j: nat)
    requires j < |payloads| && Clean(payloads[j])
    ensures Feed(IDLE, Frames(payloads)) ==
            (IDLE, Handed(payloads[..j]) + [payloads[j] + [BANG, HASH]] + Handed(payloads[j + 1..]))
  {
    FramesAreIsolated(payloads);
    HandedAround(payloads[..j], payloads[j], payloads[j + 1..]);
    SplitAround(payloads, j);
  }

  // ---------------------------------------------------------------- the receiver's buffer

  /** Reading bytes never has to write past a buffer for payloads of some size. */
  ghost predicate Fits(bytes: seq<Byte>, size: nat) {
    forall k {:trigger Feed(IDLE, bytes[..k])} :: 0 <= k < |bytes| ==> |Feed(IDLE, bytes[..k]).0.buf| < size + 2
  }

  lemma FramePrefixFits(payload: seq<Byte>, k: nat)
    requires k < |Frame(payload)|
    ensures |Feed(IDLE, Frame(payload)[..k]).0.buf| < |payload| + 2
  {
    var bytes := Frame(payload)[..k];
    if k >= 2 {
      Opening();
      assert bytes == [BANG, AMP] + bytes[2..];
      FeedAppends(IDLE, [BANG, AMP], bytes[2..]);
      FeedIsBounded(Rx(RECV, []), bytes[2..]);
    } else {
      FeedIsBounded(IDLE, bytes);
    }
  }

  /** Frames of payloads no larger than size never overrun it, however dirty. */
  lemma {:induction false} FramesFit(payloads: seq<seq<Byte>>, size: nat)
    requires forall i :: 0 <= i < |payloads| ==> |payloads[i]| <= size
    ensures Fits(Frames(payloads), size)
  {
    if payloads != [] {
      var first, rest := Frame(payloads[0]), Frames(payloads[1..]);
      FramesFit(payloads[1..], size);
      FrameResets(payloads[0]);
      forall k | 0 <= k < |first + rest| ensures |Feed(IDLE, (first + rest)[..k]).0.buf| < size + 2 {
        if k < |first| {
          FramePrefixFits(payloads[0], k);
          assert (first + rest)[..k] == first[..k];
        } else {
          assert (first + rest)[..k] == first + rest[..k - |first|];
          FeedAppends(IDLE, first, rest[..k - |first|]);
        }
      }
    }
  }

  /** One byte through the machine, in place; true when it ends a frame. */
  method PutByte(c: Byte, phase: Phase, buf: array<Byte>, idx: nat) returns (done: bool, phase': Phase, idx': nat)
    requires idx < buf.Length
    modifies buf
    ensures idx <= idx' <= buf.Length && forall j :: idx' <= j < buf.Length ==> buf[j] == old(buf[j])
    ensures Step(Rx(phase, old(buf[..idx])), c) == if done then (IDLE, [buf[..idx']]) else (Rx(phase', buf[..idx']), [])
  {
    ghost var was := buf[..idx];
    done, idx' := false, idx;
    match phase {
      case START1 => phase' := if c == BANG then START2 else START1;
      case START2 => phase' := if c == AMP then RECV else START1;
      case RECV =>
        buf[idx] := c;
        idx' := idx + 1;
        assert buf[..idx'] == was + [c];
        phase' := if c == BANG then STOP1 else RECV;
      case STOP1 =>
        buf[idx] := c;
        idx' := idx + 1;
        assert buf[..idx'] == was + [c];
        done := c == HASH;
        phase' := if c == HASH then START1 else if c == BANG then STOP1 else RECV;
    }
  }

  lemma ReadOne(stream: seq<Byte>, read: nat, r: Rx)
    requires read < |stream| && Feed(IDLE, stream[..read]) == (r, [])
    ensures Feed(IDLE, stream[..read + 1]) == Step(r, stream[read])
  {
    FeedAppends(IDLE, stream[..read], [stream[read]]);
    FeedOne(r, stream[read]);
    assert [] + Step(r, stream[read]).1 == Step(r, stream[read]).1;
    assert stream[..read + 1] == stream[..read] + [stream[read]];
  }

  /** Reads from the stream until a frame ends; none is found when the stream runs dry.
      The buffer holds a payload and the closing delimiter; it is not cleared first. */
  method ReceiveFrame(stream: seq<Byte>, buf: array<Byte>) returns (found: bool, read: nat, idx: nat)
    requires buf.Length >= 2 && Fits(stream, buf.Length - 2)
    modifies buf
    ensures read <= |stream| && idx <= buf.Length && buf[idx..] == old(buf[idx..])
    ensures found ==> Feed(IDLE, stream[..read]) == (IDLE, [buf[..idx]]) && read > 0
    ensures !found ==> read == |stream| && Feed(IDLE, stream).1 == []
  {
    idx, read := 0, 0;
    var phase := START1;
    while read < |stream|
      invariant read <= |stream| && idx <= buf.Length
      invariant forall j :: idx <= j < buf.Length ==> buf[j] == old(buf[j])
      invariant Feed(IDLE, stream[..read]) == (Rx(phase, buf[..idx]), [])
      decreases |stream| - read
    {
      ReadOne(stream, read, Rx(phase, buf[..idx]));
      var done;
      done, phase, idx := PutByte(stream[read], phase, buf, idx);
      read := read + 1;
      if done {
        return true, read, idx;
      }
    }
    assert stream[..|stream|] == stream;
    return false, read, idx;
  }
}
