/** The ones' complement fold of the Internet checksum: what two fixed steps amount to,
    and how far they reach. */
module Checksum {

  // ---------------------------------------------------------------- folding

  /** Two steps and a cast to 16 bits, before the complement. */
  function FoldTwice(sum: nat): (r: nat)
    ensures r < 0x10000
  {
    var once := sum % 0x10000 + sum / 0x10000;
    (once + once / 0x10000) % 0x10000
  }

  /** The loop of section 4.1 of RFC 1071: fold until nothing is carried. */
  function FoldFully(sum: nat): nat
    decreases sum
  {
    if sum / 0x10000 == 0 then sum else FoldFully(sum % 0x10000 + sum / 0x10000)
  }

  /** The ones' complement sum without any folding: a residue in 1..65535, or 0 for 0. */
  function Residue(sum: nat): nat {
    if sum == 0 then 0 else (sum - 1) % 0xFFFF + 1
  }

  lemma ModAddsMultiple(a: nat, h: nat)
    ensures (a + 0xFFFF * h) % 0xFFFF == a % 0xFFFF
    decreases h
  {
    if h > 0 {
      ModAddsMultiple(a, h - 1);
      assert a + 0xFFFF * h == (a + 0xFFFF * (h - 1)) + 0xFFFF;
    }
  }

  lemma {:induction false} FullFoldIsResidue(sum: nat)
    ensures FoldFully(sum) == Residue(sum)
    decreases sum
  {
    var h, l := sum / 0x10000, sum % 0x10000;
    if h > 0 {
      FullFoldIsResidue(l + h);
      assert sum - 1 == (l + h - 1) + 0xFFFF * h;
      ModAddsMultiple(l + h - 1, h);
    }
  }

  /** The complement of a sum is zero exactly for the positive multiples of 65535. */
  lemma ResidueIsAllOnes(sum: nat)
    ensures Residue(sum) == 0xFFFF <==> sum > 0 && sum % 0xFFFF == 0
  {
    if sum > 0 {
      var q, r := (sum - 1) / 0xFFFF, (sum - 1) % 0xFFFF;
      assert sum == (r + 1) + 0xFFFF * q;
      ModAddsMultiple(r + 1, q);
    }
  }

  function Swap(w: nat): (r: nat)
    requires w < 0x10000
    ensures r < 0x10000
  {
    0x100 * (w % 0x100) + w / 0x100
  }

  lemma SwappedComplement(w: nat)
    requires w < 0x10000
    ensures var c, d := 0xFFFF - w, 0xFFFF - Swap(w);
            d / 0x100 == c % 0x100 && d % 0x100 == c / 0x100
  {
    var hi, lo := w / 0x100, w % 0x100;
    assert 0xFFFF - w == 0x100 * (0xFF - hi) + (0xFF - lo);
    assert 0xFFFF - Swap(w) == 0x100 * (0xFF - lo) + (0xFF - hi);
  }

  /** Section 2(B) of RFC 1071: a sum of swapped words folds to the swapped sum. */
  lemma SwappedResidue(sum: nat, swapped: nat, k: int)
    requires swapped == 0x100 * sum - 0xFFFF * k && (sum == 0 <==> swapped == 0)
    ensures Residue(sum) < 0x10000 && Residue(swapped) == Swap(Residue(sum))
  {
    if sum > 0 {
      var q, r := (sum - 1) / 0xFFFF, Residue(sum);
      var q', r' := (swapped - 1) / 0xFFFF, Residue(swapped);
      assert sum == r + 0xFFFF * q && swapped == r' + 0xFFFF * q';
      assert 0x100 * r == Swap(r) + 0xFFFF * (r / 0x100);
      var d := r / 0x100 + 0x100 * q - k - q';
      assert r' - Swap(r) == 0xFFFF * d;
      assert 1 <= Swap(r) <= 0xFFFF;
      assert d == 0;
    }
  }

  lemma FoldTwiceIsResidue(sum: nat)
    requires sum < 0x1_0000_FFFF
    ensures FoldTwice(sum) == Residue(sum)
  {
    var h, l := sum / 0x10000, sum % 0x10000;
    if sum > 0 {
      assert sum - 1 == (l + h - 1) + 0xFFFF * h;
      ModAddsMultiple(l + h - 1, h);
    }
  }

  predicate IsWords(words: seq<nat>) {
    forall i :: 0 <= i < |words| ==> words[i] < 0x10000
  }

  function WordSum(words: seq<nat>): nat {
    if words == [] then 0 else WordSum(words[..|words| - 1]) + words[|words| - 1]
  }

  lemma {:induction false} WordSumBound(words: seq<nat>)
    requires IsWords(words)
    ensures WordSum(words) <= |words| * 0xFFFF
  {
    if words != [] {
      WordSumBound(words[..|words| - 1]);
    }
  }

  /** 65538 words of all ones but the last of the first 65539, then zeros. */
  function Overflowing(n: nat): (words: seq<nat>)
    ensures |words| == n && IsWords(words)
  {
    seq(n, i => if i < 65538 then 0xFFFF else if i == 65538 then 1 else 0)
  }

  lemma {:induction false} OverflowingSum(n: nat)
    ensures WordSum(Overflowing(n)) ==
            if n <= 65538 then n * 0xFFFF else 65538 * 0xFFFF + 1
  {
    if n > 0 {
      OverflowingSum(n - 1);
      assert Overflowing(n)[..n - 1] == Overflowing(n - 1);
    }
  }

  /** The exact reach of the two-step fold: it agrees with full folding on every buffer of
      n words if and only if n is at most 65538. */
  lemma TwoStepsReach(n: nat)
    ensures n <= 65538 <==>
            forall words: seq<nat> :: |words| == n && IsWords(words) ==>
              FoldTwice(WordSum(words)) == FoldFully(WordSum(words))
  {
    if n <= 65538 {
      forall words: seq<nat> | |words| == n && IsWords(words)
        ensures FoldTwice(WordSum(words)) == FoldFully(WordSum(words))
      {
        WordSumBound(words);
        FoldTwiceIsResidue(WordSum(words));
        FullFoldIsResidue(WordSum(words));
      }
    } else {
      OverflowingSum(n);
      var sum := WordSum(Overflowing(n));
      assert sum == 0x1_0000_FFFF;
      FullFoldIsResidue(sum);
    }
  }
}
