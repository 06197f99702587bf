/** A segment as it lies in memory: stamping it with its checksum, checking it, and the
    single-bit error injector that the check has to catch. */
module SegmentImage {
  import opened Segment
  import opened Checksum

  const SEG_SIZE: nat := 224
  const HDR_SIZE: nat := 24
  const TYPE_AT: nat := 18
  const CHECKSUM_AT: nat := 22
  const DATA_TYPE: nat := 4

  /** The words are read in the host's byte order. */
  type Image = s: seq<Byte> | |s| == SEG_SIZE witness seq(SEG_SIZE, _ => 0)

  // ---------------------------------------------------------------- sums of words

  /** What a byte at index i contributes for each unit. */
  function Weight(i: nat, big: bool): nat {
    if (i % 2 == 0) == big then 0x100 else 1
  }

  function Word(s: Image, i: nat, big: bool): (w: nat)
    requires 2 * i + 1 < SEG_SIZE
    ensures w < 0x10000
  {
    var first: int, second: int := s[2 * i], s[2 * i + 1];
    if big then 0x100 * first + second else first + 0x100 * second
  }

  /** The sum of the first n words. */
  function Sum(s: Image, n: nat, big: bool): nat
    requires 2 * n <= SEG_SIZE
  {
    if n == 0 then 0 else Sum(s, n - 1, big) + Word(s, n - 1, big)
  }

  lemma {:induction false} SumBound(s: Image, n: nat, big: bool)
    requires 2 * n <= SEG_SIZE
    ensures Sum(s, n, big) <= n * 0xFFFF
  {
    if n > 0 {
      SumBound(s, n - 1, big);
    }
  }

  lemma {:induction false} SumChange(s: Image, n: nat, big: bool, i: nat, v: Byte)
    requires 2 * n <= SEG_SIZE && i < SEG_SIZE
    ensures Sum(s[i := v], n, big) ==
            Sum(s, n, big) + if i < 2 * n then Weight(i, big) * (v - s[i]) else 0
  {
    if n > 0 {
      SumChange(s, n - 1, big, i, v);
    }
  }

  /** The type field is word 9 of the header. */
  function TypeOf(s: Image, big: bool): nat {
    Word(s, TYPE_AT / 2, big)
  }

  function KindOf(number: nat): Kind {
    if number == 0 then SYN else if number == 1 then SYNACK else if number == 2 then FIN
    else if number == 3 then FINACK else if number == 4 then DATA else if number == 5 then DATAACK else OTHER
  }

  /** The words a checksum covers: the whole segment for DATA, else the header. */
  function Covered(s: Image, big: bool): nat {
    if TypeOf(s, big) == DATA_TYPE then SEG_SIZE / 2 else HDR_SIZE / 2
  }

  // ---------------------------------------------------------------- checksum and check

  function ChecksumOf(s: Image, big: bool): (c: nat)
    ensures c < 0x10000
  {
    0xFFFF - FoldTwice(Sum(s, Covered(s, big), big))
  }

  predicate Passes(s: Image, big: bool) {
    ChecksumOf(s, big) == 0
  }

  function Store(s: Image, c: nat, big: bool): Image
    requires c < 0x10000
  {
    if big then s[CHECKSUM_AT := c / 0x100][CHECKSUM_AT + 1 := c % 0x100]
    else s[CHECKSUM_AT := c % 0x100][CHECKSUM_AT + 1 := c / 0x100]
  }

  /** What snp_sendseg leaves in memory: the field cleared, then filled in. */
  function Stamped(s: Image, big: bool): Image {
    var cleared := Store(s, 0, big);
    Store(cleared, ChecksumOf(cleared, big), big)
  }

  /** Stamping writes the two bytes of the checksum field and no others. */
  lemma StampKeepsTheRest(s: Image, big: bool)
    ensures forall i :: 0 <= i < SEG_SIZE && !(CHECKSUM_AT <= i < CHECKSUM_AT + 2) ==> Stamped(s, big)[i] == s[i]
    ensures Word(Stamped(s, big), CHECKSUM_AT / 2, big) == ChecksumOf(Store(s, 0, big), big)
  {
  }

  /** A segment that is sent again goes out with the same bytes. */
  lemma RestampChangesNothing(s: Image, big: bool)
    ensures Stamped(Stamped(s, big), big) == Stamped(s, big)
  {
    assert Store(Stamped(s, big), 0, big) == Store(s, 0, big);
  }

  lemma PassesMeans(s: Image, big: bool)
    ensures var sum := Sum(s, Covered(s, big), big);
            Passes(s, big) <==> sum > 0 && sum % 0xFFFF == 0
  {
    var sum := Sum(s, Covered(s, big), big);
    SumBound(s, Covered(s, big), big);
    FoldTwiceIsResidue(sum);
    ResidueIsAllOnes(sum);
  }

  lemma StoreAdds(s: Image, c: nat, n: nat, big: bool)
    requires c < 0x10000 && HDR_SIZE / 2 <= n <= SEG_SIZE / 2
    requires s[CHECKSUM_AT] == s[CHECKSUM_AT + 1] == 0
    ensures Sum(Store(s, c, big), n, big) == Sum(s, n, big) + c
    ensures Covered(Store(s, c, big), big) == Covered(s, big)
  {
    var hi, lo := c / 0x100, c % 0x100;
    var first, second := if big then hi else lo, if big then lo else hi;
    SumChange(s, n, big, CHECKSUM_AT, first);
    SumChange(s[CHECKSUM_AT := first], n, big, CHECKSUM_AT + 1, second);
  }

  /** A freshly stamped segment always passes. */
  lemma StampedPasses(s: Image, big: bool)
    ensures Passes(Stamped(s, big), big)
    ensures Covered(Stamped(s, big), big) == Covered(s, big)
  {
    var cleared := Store(s, 0, big);
    var n := Covered(cleared, big);
    var sum, c := Sum(cleared, n, big), ChecksumOf(cleared, big);
    StoreAdds(cleared, c, n, big);
    SumBound(cleared, n, big);
    FoldTwiceIsResidue(sum);
    PassesMeans(Stamped(s, big), big);
    if sum > 0 {
      var q := (sum - 1) / 0xFFFF;
      assert sum + c == 0xFFFF * (q + 1);
      ModAddsMultiple(0, q + 1);
    }
  }

  // ---------------------------------------------------------------- byte order

  lemma {:induction false} OrdersAgree(s: Image, n: nat)
    requires 2 * n <= SEG_SIZE
    ensures exists k: int :: Sum(s, n, true) == 0x100 * Sum(s, n, false) - 0xFFFF * k
    ensures Sum(s, n, true) == 0 <==> Sum(s, n, false) == 0
  {
    if n > 0 {
      OrdersAgree(s, n - 1);
      var k: int :| Sum(s, n - 1, true) == 0x100 * Sum(s, n - 1, false) - 0xFFFF * k;
      assert Sum(s, n, true) == 0x100 * Sum(s, n, false) - 0xFFFF * (k + s[2 * n - 1]);
    } else {
      assert Sum(s, 0, true) == 0x100 * Sum(s, 0, false) - 0xFFFF * 0;
    }
  }

  /** Whatever the number of words covered, the order in which their bytes are read
      changes neither the verdict nor, in memory, the two bytes of the checksum. */
  lemma ByteOrderDoesNotMatter(s: Image, n: nat)
    requires 2 * n <= SEG_SIZE
    ensures var b, l := FoldTwice(Sum(s, n, true)), FoldTwice(Sum(s, n, false));
            && (0xFFFF - b == 0 <==> 0xFFFF - l == 0)
            && Store(s, 0xFFFF - b, true) == Store(s, 0xFFFF - l, false)
  {
    FoldsAreSwapped(s, n);
    SwappedComplement(FoldTwice(Sum(s, n, false)));
  }

  lemma FoldsAreSwapped(s: Image, n: nat)
    requires 2 * n <= SEG_SIZE
    ensures FoldTwice(Sum(s, n, true)) == Swap(FoldTwice(Sum(s, n, false)))
  {
    OrdersAgree(s, n);
    var k: int :| Sum(s, n, true) == 0x100 * Sum(s, n, false) - 0xFFFF * k;
    SwappedResidue(Sum(s, n, false), Sum(s, n, true), k);
    SumBound(s, n, true);
    SumBound(s, n, false);
    FoldTwiceIsResidue(Sum(s, n, true));
    FoldTwiceIsResidue(Sum(s, n, false));
  }

  // ---------------------------------------------------------------- one flipped bit

  function Bit(j: nat): (p: nat)
    requires j < 8
    ensures 1 <= p <= 0x80
  {
    if j == 0 then 1 else if j == 1 then 2 else if j == 2 then 4 else if j == 3 then 8
    else if j == 4 then 0x10 else if j == 5 then 0x20 else if j == 6 then 0x40 else 0x80
  }

  /** Exclusive or with one bit. */
  function FlipByte(b: Byte, j: nat): Byte
    requires j < 8
  {
    var p := Bit(j);
    assert b / p % 2 == 1 ==> b >= p by { BitFits(b, j); }
    assert b / p % 2 == 0 ==> b + p < 0x100 by { BitFits(b, j); }
    if b / p % 2 == 1 then b - p else b + p
  }

  lemma BitFits(b: Byte, j: nat)
    requires j < 8
    ensures b / Bit(j) % 2 == 1 ==> b >= Bit(j)
    ensures b / Bit(j) % 2 == 0 ==> b + Bit(j) < 0x100
  {
  }

  /** Binary digit i of a number: halved i times, whether it is odd. */
  predicate Digit(n: nat, i: nat) {
    if i == 0 then n % 2 == 1 else Digit(n / 2, i - 1)
  }

  /** FlipByte is the exclusive or with 1 << j: digit j changes and no other does. */
  lemma {:induction false} FlipByteIsXor(b: Byte, j: nat, i: nat)
    requires j < 8
    ensures Digit(FlipByte(b, j), i) == if i == j then !Digit(b, i) else Digit(b, i)
  {
    if j > 0 && i > 0 {
      HalvesFlip(b, j);
      FlipByteIsXor(b / 2, j - 1, i - 1);
    } else if j > 0 {
      HalvesFlip(b, j);
    }
  }

  lemma HalvesFlip(b: Byte, j: nat)
    requires 0 < j < 8
    ensures FlipByte(b, j) / 2 == FlipByte(b / 2, j - 1) && FlipByte(b, j) % 2 == b % 2
  {
  }

  function Flip(s: Image, k: nat): Image
    requires k < 8 * SEG_SIZE
  {
    s[k / 8 := FlipByte(s[k / 8], k % 8)]
  }

  /** By how much flipping bit k changes the sum of words that cover it. */
  function Change(s: Image, k: nat, big: bool): int
    requires k < 8 * SEG_SIZE
  {
    Weight(k / 8, big) * (FlipByte(s[k / 8], k % 8) - s[k / 8])
  }

  lemma ChangeIsSmall(s: Image, k: nat, big: bool)
    requires k < 8 * SEG_SIZE
    ensures 0 < Change(s, k, big) <= 0x8000 || -0x8000 <= Change(s, k, big) < 0
  {
  }

  predicate InType(k: nat) {
    TYPE_AT <= k / 8 < TYPE_AT + 2
  }

  /** Flipping a covered bit moves the sum off the multiples of 65535, as long as the same
      words stay covered. */
  lemma CoveredFlipFails(s: Image, k: nat, big: bool)
    requires Passes(s, big) && k < 8 * SEG_SIZE && k / 8 < 2 * Covered(s, big)
    requires Covered(Flip(s, k), big) == Covered(s, big)
    ensures !Passes(Flip(s, k), big)
  {
    var n := Covered(s, big);
    PassesMeans(s, big);
    PassesMeans(Flip(s, k), big);
    ChangeIsSmall(s, k, big);
    FlipSums(s, k, n, big);
    MultiplesAdd(Sum(s, n, big), Change(s, k, big));
  }

  lemma OutsideTypeKeepsCover(s: Image, k: nat, big: bool)
    requires k < 8 * SEG_SIZE && !InType(k)
    ensures Covered(Flip(s, k), big) == Covered(s, big)
  {
  }

  /** Any covered bit outside the type field: the corrupted segment is rejected. */
  lemma FlipOutsideTypeIsCaught(s: Image, k: nat, big: bool)
    requires k < 8 * SEG_SIZE && k / 8 < 2 * Covered(s, big) && !InType(k)
    ensures !Passes(Flip(Stamped(s, big), k), big)
  {
    StampedPasses(s, big);
    OutsideTypeKeepsCover(Stamped(s, big), k, big);
    CoveredFlipFails(Stamped(s, big), k, big);
  }

  function DataSum(s: Image, big: bool): int {
    Sum(s, SEG_SIZE / 2, big) - Sum(s, HDR_SIZE / 2, big)
  }

  lemma FlipSums(s: Image, k: nat, n: nat, big: bool)
    requires k < 8 * SEG_SIZE && 2 * n <= SEG_SIZE && k / 8 < 2 * n
    ensures Sum(Flip(s, k), n, big) == Sum(s, n, big) + Change(s, k, big)
  {
    SumChange(s, n, big, k / 8, FlipByte(s[k / 8], k % 8));
  }

  lemma TypeChanges(s: Image, k: nat, big: bool)
    requires k < 8 * SEG_SIZE && InType(k)
    ensures TypeOf(Flip(s, k), big) == TypeOf(s, big) + Change(s, k, big)
  {
  }

  /** A DATA segment whose type field is hit is checked over its header alone: it gets
      through exactly when its data sums to the change that the flip made. */
  lemma FlippedDataType(s: Image, k: nat, big: bool)
    requires Passes(s, big) && TypeOf(s, big) == DATA_TYPE && k < 8 * SEG_SIZE && InType(k)
    ensures var header := Sum(Flip(s, k), HDR_SIZE / 2, big);
            Passes(Flip(s, k), big) <==> header > 0 && (DataSum(s, big) - Change(s, k, big)) % 0xFFFF == 0
  {
    ChangeIsSmall(s, k, big);
    TypeChanges(s, k, big);
    FlipSums(s, k, HDR_SIZE / 2, big);
    PassesMeans(s, big);
    PassesMeans(Flip(s, k), big);
    MultiplesCancel(Sum(s, SEG_SIZE / 2, big), Sum(Flip(s, k), HDR_SIZE / 2, big),
                    DataSum(s, big) - Change(s, k, big));
  }

  lemma MultiplesCancel(total: int, rest: int, part: int)
    requires total % 0xFFFF == 0 && total == rest + part
    ensures rest % 0xFFFF == 0 <==> part % 0xFFFF == 0
  {
  }

  lemma MultiplesAdd(header: int, part: int)
    requires header % 0xFFFF == 0
    ensures (header + part) % 0xFFFF == 0 <==> part % 0xFFFF == 0
  {
  }

  /** A control segment whose type field is hit is caught, unless it turns into DATA and
      the bytes behind its header happen to undo the change. */
  lemma FlippedControlType(s: Image, k: nat, big: bool)
    requires Passes(s, big) && TypeOf(s, big) != DATA_TYPE && k < 8 * SEG_SIZE && InType(k)
    ensures Passes(Flip(s, k), big) <==>
              TypeOf(Flip(s, k), big) == DATA_TYPE && (DataSum(s, big) + Change(s, k, big)) % 0xFFFF == 0
  {
    if TypeOf(Flip(s, k), big) == DATA_TYPE {
      FlipSums(s, k, SEG_SIZE / 2, big);
      PassesMeans(s, big);
      PassesMeans(Flip(s, k), big);
      TypeIsInSum(Flip(s, k), SEG_SIZE / 2, big);
      MultiplesAdd(Sum(s, HDR_SIZE / 2, big), DataSum(s, big) + Change(s, k, big));
    } else {
      CoveredFlipFails(s, k, big);
    }
  }

  /** The bits whose flipping a check does not notice. */
  predicate Undetected(s: Image, k: nat, big: bool)
    requires k < 8 * SEG_SIZE
  {
    if !InType(k) then
      k / 8 >= 2 * Covered(s, big)
    else if TypeOf(s, big) == DATA_TYPE then
      Sum(Flip(s, k), HDR_SIZE / 2, big) > 0 && (DataSum(s, big) - Change(s, k, big)) % 0xFFFF == 0
    else
      TypeOf(s, big) + Change(s, k, big) == DATA_TYPE && (DataSum(s, big) + Change(s, k, big)) % 0xFFFF == 0
  }

  /** The verdict on every single-bit error in a valid segment, whichever bit it hits. */
  lemma FlipVerdict(s: Image, k: nat, big: bool)
    requires Passes(s, big) && k < 8 * SEG_SIZE
    ensures Passes(Flip(s, k), big) <==> Undetected(s, k, big)
  {
    if InType(k) {
      TypeChanges(s, k, big);
      if TypeOf(s, big) == DATA_TYPE {
        FlippedDataType(s, k, big);
      } else {
        FlippedControlType(s, k, big);
      }
    } else {
      OutsideTypeKeepsCover(s, k, big);
      if k / 8 < 2 * Covered(s, big) {
        CoveredFlipFails(s, k, big);
      } else {
        SumChange(s, Covered(s, big), big, k / 8, FlipByte(s[k / 8], k % 8));
      }
    }
  }

  lemma {:induction false} TypeIsInSum(s: Image, n: nat, big: bool)
    requires TYPE_AT / 2 < n && 2 * n <= SEG_SIZE
    ensures Sum(s, n, big) >= TypeOf(s, big)
  {
    if n > TYPE_AT / 2 + 1 {
      TypeIsInSum(s, n - 1, big);
    }
  }

  lemma {:induction false} ZeroDataSum(s: Image, n: nat, big: bool)
    requires HDR_SIZE / 2 <= n && 2 * n <= SEG_SIZE
    requires forall i :: HDR_SIZE <= i < SEG_SIZE ==> s[i] == 0
    ensures Sum(s, n, big) == Sum(s, HDR_SIZE / 2, big)
  {
    if n > HDR_SIZE / 2 {
      ZeroDataSum(s, n - 1, big);
    }
  }

  /** The control segments that the code sends have no data: any flipped header bit is
      caught, the type field included. */
  lemma FlippedControlIsCaught(s: Image, k: nat, big: bool)
    requires TypeOf(s, big) != DATA_TYPE && k < 8 * HDR_SIZE
    requires forall i :: HDR_SIZE <= i < SEG_SIZE ==> s[i] == 0
    ensures !Passes(Flip(Stamped(s, big), k), big)
  {
    if InType(k) {
      var t := Stamped(s, big);
      StampedPasses(s, big);
      ZeroDataSum(t, SEG_SIZE / 2, big);
      assert DataSum(t, big) == 0;
      ChangeIsSmall(t, k, big);
      FlippedControlType(t, k, big);
    } else {
      FlipOutsideTypeIsCaught(s, k, big);
    }
  }

  /** The lowest bit of the type field, in its less significant byte. */
  function LowestTypeBit(big: bool): (k: nat)
    ensures InType(k) && k < 8 * SEG_SIZE
  {
    8 * if big then TYPE_AT + 1 else TYPE_AT
  }

  /** Some corruption does get through: on a host of either byte order, any DATA segment
      whose data sums to 1 passes the check as a DATAACK after the lowest bit of its type
      field is flipped. */
  lemma FlippedDataCanPass(s: Image, big: bool)
    requires TypeOf(s, big) == DATA_TYPE && DataSum(s, big) == 1
    ensures var hit := Flip(Stamped(s, big), LowestTypeBit(big));
            Passes(hit, big) && TypeOf(hit, big) == DATA_TYPE + 1
  {
    var t, k := Stamped(s, big), LowestTypeBit(big);
    StampedPasses(s, big);
    StampedKeepsData(s, big);
    assert Change(t, k, big) == 1 by {
      LowestBitRises(t, big);
    }
    TypeChanges(t, k, big);
    FlippedDataType(t, k, big);
    TypeIsInSum(Flip(t, k), HDR_SIZE / 2, big);
  }

  lemma LowestBitRises(s: Image, big: bool)
    requires TypeOf(s, big) == DATA_TYPE
    ensures Change(s, LowestTypeBit(big), big) == 1
  {
  }

  /** One flipped bit makes DATA a SYN, a DATAACK or nothing that is defined. */
  lemma HitTypes(s: Image, k: nat, big: bool)
    requires TypeOf(s, big) == DATA_TYPE && k < 8 * SEG_SIZE && InType(k)
    ensures MayHit(KindOf(TypeOf(Flip(s, k), big)))
  {
    var low := if big then TYPE_AT + 1 else TYPE_AT;
    assert s[low] == DATA_TYPE && s[2 * TYPE_AT + 1 - low] == 0;
  }

  lemma StampedKeepsData(s: Image, big: bool)
    ensures DataSum(Stamped(s, big), big) == DataSum(s, big)
    ensures TypeOf(Stamped(s, big), big) == TypeOf(s, big)
  {
    var cleared := Store(s, 0, big);
    StoreKeepsData(s, 0, big);
    StoreKeepsData(cleared, ChecksumOf(cleared, big), big);
  }

  lemma StoreKeepsData(s: Image, c: nat, big: bool)
    requires c < 0x10000
    ensures DataSum(Store(s, c, big), big) == DataSum(s, big)
    ensures TypeOf(Store(s, c, big), big) == TypeOf(s, big)
  {
    var first: Byte, second: Byte := if big then c / 0x100 else c % 0x100, if big then c % 0x100 else c / 0x100;
    var t := s[CHECKSUM_AT := first];
    SumChange(s, SEG_SIZE / 2, big, CHECKSUM_AT, first);
    SumChange(s, HDR_SIZE / 2, big, CHECKSUM_AT, first);
    SumChange(t, SEG_SIZE / 2, big, CHECKSUM_AT + 1, second);
    SumChange(t, HDR_SIZE / 2, big, CHECKSUM_AT + 1, second);
  }

  // ---------------------------------------------------------------- in place

  /** Reads the words that the type field selects and folds their sum. */
  method Accumulate(seg: array<Byte>, big: bool) returns (c: nat)
    requires seg.Length == SEG_SIZE
    ensures c == ChecksumOf(seg[..], big)
  {
    ghost var s: Image := seg[..];
    var kind := if big then 0x100 * (seg[TYPE_AT] as int) + seg[TYPE_AT + 1]
                else 0x100 * (seg[TYPE_AT + 1] as int) + seg[TYPE_AT];
    var count: nat := if kind == DATA_TYPE then SEG_SIZE else HDR_SIZE;
    var sum: nat, at: nat := 0, 0;
    while count > 1
      invariant count + at == 2 * Covered(s, big) && at % 2 == 0
      invariant sum == Sum(s, at / 2, big)
      decreases count
    {
      var first: int, second: int := seg[at], seg[at + 1];
      assert Word(s, at / 2, big) == if big then 0x100 * first + second else first + 0x100 * second;
      sum := sum + if big then 0x100 * first + second else first + 0x100 * second;
      at := at + 2;
      count := count - 2;
    }
    ghost var total := sum;
    assert total == Sum(s, Covered(s, big), big);
    sum := sum % 0x10000 + sum / 0x10000;
    sum := sum + sum / 0x10000;
    assert sum % 0x10000 == FoldTwice(total);
    c := 0xFFFF - sum % 0x10000;
  }

  /** Clears the checksum field, computes the checksum and fills it in. */
  method Stamp(seg: array<Byte>, big: bool)
    requires seg.Length == SEG_SIZE
    modifies seg
    ensures seg[..] == Stamped(old(seg[..]), big)
  {
    seg[CHECKSUM_AT], seg[CHECKSUM_AT + 1] := 0, 0;
    assert seg[..] == Store(old(seg[..]), 0, big);
    var c := Accumulate(seg, big);
    if big {
      seg[CHECKSUM_AT], seg[CHECKSUM_AT + 1] := c / 0x100, c % 0x100;
    } else {
      seg[CHECKSUM_AT], seg[CHECKSUM_AT + 1] := c % 0x100, c / 0x100;
    }
  }

  /** 1 when the checksum is valid, -1 when it is not. */
  method Check(seg: array<Byte>, big: bool) returns (r: int)
    requires seg.Length == SEG_SIZE
    ensures r == if Passes(seg[..], big) then 1 else -1
  {
    var c := Accumulate(seg, big);
    r := if c == 0 then 1 else -1;
  }

  /** What the loss simulator decides to do with a segment. */
  datatype Fate = Intact | Lost | BitError(k: BitIndex)

  type BitIndex = k: nat | k < 8 * SEG_SIZE

  /** Returns 1 for a lost segment; otherwise at most one bit of it has been flipped. */
  method Lose(seg: array<Byte>, fate: Fate) returns (r: nat)
    requires seg.Length == SEG_SIZE
    modifies seg
    ensures r == if fate.Lost? then 1 else 0
    ensures seg[..] == if fate.BitError? then Flip(old(seg[..]), fate.k) else old(seg[..])
  {
    match fate {
      case Lost => return 1;
      case BitError(k) =>
        seg[k / 8] := FlipByte(seg[k / 8], k % 8);
        return 0;
      case Intact => return 0;
    }
  }
}
