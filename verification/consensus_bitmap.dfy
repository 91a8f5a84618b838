/**
 The check of a header's signature bitmap, and what it is for: how many signers
 two accepted bitmaps must share. The thresholds are parameters, because the functions
 that compute them from the group size are outside the repository.
 */
module ConsensusBitmap {
  import opened Bits

  datatype Verdict = Valid | WrongSize | NotEnoughSignatures

  /** The fewest bytes that hold a bit for every key. */
  function BitmapSize(n: nat): (size: nat)
    ensures 8 * size >= n && (size > 0 ==> 8 * (size - 1) < n)
  {
    n / 8 + if n % 8 != 0 then 1 else 0
  }

  method GetBitmapSize(consensusSize: nat) returns (expectedBitmapSize: nat)
    ensures expectedBitmapSize == BitmapSize(consensusSize)
  {
    expectedBitmapSize := consensusSize / 8;
    if consensusSize % 8 != 0 {
      expectedBitmapSize := expectedBitmapSize + 1;
    }
  }

  /** Bit k of x, the lowest being bit 0. */
  predicate Bit(x: nat, k: nat)
    decreases k
  {
    if k == 0 then x % 2 == 1 else Bit(x / 2, k - 1)
  }

  /** bits.OnesCount8, for a word of any width. */
  function OnesCount(x: nat): nat {
    if x == 0 then 0 else x % 2 + OnesCount(x / 2)
  }

  /** The positions below i that a bitmap marks; key j is bit j%8 of byte j/8. */
  function SignersBelow(bitmap: seq<byte>, i: nat): set<nat>
    requires i <= 8 * |bitmap|
  {
    set j: nat | j < i && Bit(bitmap[j / 8], j % 8)
  }

  function Signers(bitmap: seq<byte>): set<nat> {
    SignersBelow(bitmap, 8 * |bitmap|)
  }

  /** How many of the w low bits of x are set. */
  function CountBits(x: nat, w: nat): nat
    decreases w
  {
    if w == 0 then 0 else CountBits(x, w - 1) + if Bit(x, w - 1) then 1 else 0
  }

  lemma {:induction false} CountHalf(x: nat, w: nat)
    requires w > 0
    ensures CountBits(x, w) == x % 2 + CountBits(x / 2, w - 1)
    decreases w
  {
    if w > 1 {
      CountHalf(x, w - 1);
    } else {
      assert CountBits(x, 0) == 0 == CountBits(x / 2, 0);
    }
  }

  lemma {:induction false} OnesCountIsCount(x: nat, w: nat)
    requires x < Pow2(w)
    ensures OnesCount(x) == CountBits(x, w)
    decreases w
  {
    if w > 0 {
      CountHalf(x, w);
      OnesCountIsCount(x / 2, w - 1);
    }
  }

  lemma {:induction false} CountByte(bitmap: seq<byte>, m: nat, w: nat)
    requires m < |bitmap| && w <= 8
    ensures |SignersBelow(bitmap, 8 * m + w)| == |SignersBelow(bitmap, 8 * m)| + CountBits(bitmap[m], w)
    decreases w
  {
    if w > 0 {
      var i := 8 * m + (w - 1);
      CountByte(bitmap, m, w - 1);
      assert i / 8 == m && i % 8 == w - 1;
      assert SignersBelow(bitmap, i + 1) == SignersBelow(bitmap, i) + if Bit(bitmap[m], w - 1) then {i} else {};
    }
  }

  lemma NextByte(bitmap: seq<byte>, m: nat)
    requires m < |bitmap|
    ensures |SignersBelow(bitmap, 8 * m + 8)| == |SignersBelow(bitmap, 8 * m)| + OnesCount(bitmap[m])
  {
    assert Pow2(8) == 256;
    OnesCountIsCount(bitmap[m], 8);
    CountByte(bitmap, m, 8);
  }

  /** A bitmap of the right size that marks at least t positions. */
  predicate Accepted(n: nat, t: nat, bitmap: seq<byte>) {
    |bitmap| == BitmapSize(n) && |Signers(bitmap)| >= t
  }

  method IsConsensusBitmapValid(consensusPubKeys: seq<string>, bitmap: seq<byte>, shouldApplyFallbackValidation: bool,
                                threshold: nat, fallbackThreshold: nat)
    returns (r: Verdict)
    ensures var t := if shouldApplyFallbackValidation then fallbackThreshold else threshold;
            && (r == WrongSize <==> |bitmap| != BitmapSize(|consensusPubKeys|))
            && (r == Valid <==> Accepted(|consensusPubKeys|, t, bitmap))
  {
    var consensusSize := |consensusPubKeys|;
    var expectedBitmapSize := GetBitmapSize(consensusSize);
    if |bitmap| != expectedBitmapSize {
      return WrongSize;
    }
    var numOfOnesInBitmap := 0;
    for index := 0 to |bitmap|
      invariant numOfOnesInBitmap == |SignersBelow(bitmap, 8 * index)|
    {
      NextByte(bitmap, index);
      numOfOnesInBitmap := numOfOnesInBitmap + OnesCount(bitmap[index]);
    }
    var minNumRequiredSignatures := threshold;
    if shouldApplyFallbackValidation {
      minNumRequiredSignatures := fallbackThreshold;
    }
    return if numOfOnesInBitmap >= minNumRequiredSignatures then Valid else NotEnoughSignatures;
  }

  /** A set bit is a binary digit 1. */
  lemma {:induction false} BitIsDigit(x: nat, k: nat)
    ensures Bit(x, k) <==> x / Pow2(k) % 2 == 1
    decreases k
  {
    if k > 0 {
      BitIsDigit(x / 2, k - 1);
      Halve(x, Pow2(k - 1));
    } else {
      assert Pow2(0) == 1;
    }
  }

  lemma Halve(x: nat, b: nat)
    requires b > 0
    ensures x / 2 / b == x / (2 * b)
  {
    var q, r := x / 2, x % 2;
    var q2, r2 := q / b, q % b;
    assert q == q2 * b + r2;
    Double(q2, b);
    DivUnique(x, 2 * b, q2, 2 * r2 + r);
  }

  lemma Double(q: nat, b: nat)
    ensures q * (2 * b) == 2 * (q * b)
  {
  }

  /** Key j signed exactly if digit j%8 of byte j/8 is 1. */
  lemma SignersMean(bitmap: seq<byte>, j: nat)
    ensures j in Signers(bitmap) <==> j < 8 * |bitmap| && bitmap[j / 8] / Pow2(j % 8) % 2 == 1
  {
    if j < 8 * |bitmap| {
      BitIsDigit(bitmap[j / 8], j % 8);
    }
  }

  // ----- overlap -----

  /** The bits past the last key are clear; the check itself does not look. */
  ghost predicate PaddingClear(n: nat, bitmap: seq<byte>) {
    forall j | j in Signers(bitmap) :: j < n
  }

  lemma {:induction false} CountBelow(s: set<nat>, n: nat)
    requires forall j | j in s :: j < n
    ensures |s| <= n
    decreases n
  {
    if n > 0 {
      var rest := s - {n - 1};
      CountBelow(rest, n - 1);
      assert s <= rest + {n - 1};
      Subset(s, rest + {n - 1});
    } else {
      assert s == {};
    }
  }

  lemma {:induction false} Subset(a: set<nat>, b: set<nat>)
    requires a <= b
    ensures |a| <= |b|
  {
    assert b == a + (b - a);
  }

  lemma TwoSets(a: set<nat>, b: set<nat>, n: nat)
    requires forall j | j in a + b :: j < n
    ensures |a * b| >= |a| + |b| - n
  {
    CountBelow(a + b, n);
    assert a + b == a + (b - a) && b == (b - a) + (a * b);
  }

  /**
   Two accepted bitmaps with clear padding share at least t1 + t2 - n signers, all
   of them in the group; one may have been accepted under the fallback threshold.
   */
  lemma QuorumsOverlap(n: nat, t1: nat, t2: nat, a: seq<byte>, b: seq<byte>)
    requires Accepted(n, t1, a) && Accepted(n, t2, b) && PaddingClear(n, a) && PaddingClear(n, b)
    ensures |Signers(a) * Signers(b)| >= t1 + t2 - n
    ensures forall j | j in Signers(a) * Signers(b) :: j < n
  {
    TwoSets(Signers(a), Signers(b), n);
  }

  /** Whatever the padding holds, the overlap is counted against all positions of the bitmap. */
  lemma QuorumsOverlapAnyPadding(n: nat, t1: nat, t2: nat, a: seq<byte>, b: seq<byte>)
    requires Accepted(n, t1, a) && Accepted(n, t2, b)
    ensures |Signers(a) * Signers(b)| >= t1 + t2 - 8 * BitmapSize(n)
  {
    TwoSets(Signers(a), Signers(b), 8 * BitmapSize(n));
  }

  // ----- exactly when the check alone ensures the overlap -----

  /** The word of w bits whose bit k is set when lo <= i + k < hi. */
  function RangeWord(lo: nat, hi: nat, i: nat, w: nat): (x: nat)
    ensures x < Pow2(w)
    decreases w
  {
    if w == 0 then 0
    else (if lo <= i < hi then 1 else 0) + 2 * RangeWord(lo, hi, i + 1, w - 1)
  }

  lemma {:induction false} RangeWordBit(lo: nat, hi: nat, i: nat, w: nat, k: nat)
    requires k < w
    ensures Bit(RangeWord(lo, hi, i, w), k) <==> lo <= i + k < hi
    decreases w
  {
    var rest := RangeWord(lo, hi, i + 1, w - 1);
    assert RangeWord(lo, hi, i, w) / 2 == rest;
    if k > 0 {
      RangeWordBit(lo, hi, i + 1, w - 1, k - 1);
    }
  }

  /** The bitmap of so many bytes that marks the positions from lo to hi. */
  function RangeBitmap(lo: nat, hi: nat, size: nat): (bitmap: seq<byte>)
    ensures |bitmap| == size
  {
    assert Pow2(8) == 256;
    seq(size, m requires 0 <= m < size => RangeWord(lo, hi, 8 * m, 8))
  }

  function Range(lo: nat, hi: nat): (s: set<nat>)
    ensures forall j :: j in s <==> lo <= j < hi
    ensures |s| == if lo < hi then hi - lo else 0
    decreases hi
  {
    if lo >= hi then {} else Range(lo, hi - 1) + {hi - 1}
  }

  lemma RangeSigners(lo: nat, hi: nat, size: nat)
    requires lo <= hi <= 8 * size
    ensures Signers(RangeBitmap(lo, hi, size)) == Range(lo, hi)
  {
    var bitmap := RangeBitmap(lo, hi, size);
    forall j: nat | j < 8 * size ensures j in Signers(bitmap) <==> j in Range(lo, hi) {
      RangeWordBit(lo, hi, 8 * (j / 8), 8, j % 8);
    }
  }

  ghost predicate AlwaysOverlap(n: nat, t1: nat, t2: nat) {
    forall a, b | Accepted(n, t1, a) && Accepted(n, t2, b) :: |Signers(a) * Signers(b)| >= t1 + t2 - n
  }

  /**
   The check alone, whatever the padding, ensures that overlap exactly when there
   is no padding, nothing to ensure, or nothing to accept.
   */
  lemma OverlapIff(n: nat, t1: nat, t2: nat)
    ensures AlwaysOverlap(n, t1, t2) <==>
            (n % 8 == 0 || t1 + t2 <= n || t1 > 8 * BitmapSize(n) || t2 > 8 * BitmapSize(n))
  {
    var size := BitmapSize(n);
    forall a, b | Accepted(n, t1, a) && Accepted(n, t2, b)
      ensures |Signers(a) * Signers(b)| >= t1 + t2 - 8 * size && t1 <= 8 * size && t2 <= 8 * size
    {
      QuorumsOverlapAnyPadding(n, t1, t2, a, b);
      CountBelow(Signers(a), 8 * size);
      CountBelow(Signers(b), 8 * size);
    }
    if n % 8 != 0 && t1 + t2 > n && t1 <= 8 * size && t2 <= 8 * size {
      var a, b := LeastOverlap(n, t1, t2, size);
      assert |Signers(a) * Signers(b)| < t1 + t2 - n;
    }
  }

  /** One bitmap marks the first positions, the other the last: they share as few as possible. */
  lemma LeastOverlap(n: nat, t1: nat, t2: nat, size: nat) returns (a: seq<byte>, b: seq<byte>)
    requires size == BitmapSize(n) && t1 <= 8 * size && t2 <= 8 * size
    ensures Accepted(n, t1, a) && Accepted(n, t2, b)
    ensures |Signers(a) * Signers(b)| == if t1 + t2 > 8 * size then t1 + t2 - 8 * size else 0
  {
    var lo := 8 * size - t2;
    a, b := RangeBitmap(0, t1, size), RangeBitmap(lo, 8 * size, size);
    RangeSigners(0, t1, size);
    RangeSigners(lo, 8 * size, size);
    RangesMeet(t1, lo, 8 * size);
  }

  lemma RangesMeet(t1: nat, lo: nat, hi: nat)
    requires t1 <= hi
    ensures Range(0, t1) * Range(lo, hi) == Range(lo, t1)
  {
  }

  /** For a group of one, the check accepts two bitmaps that share no signer, their padding being set. */
  lemma PaddingMatters()
    ensures Accepted(1, 1, [2]) && Accepted(1, 1, [4]) && Signers([2]) * Signers([4]) == {} && 2 * 1 - 1 > 0
  {
    assert Bit(2, 1) && Bit(4, 2);
    assert 1 in Signers([2]) && 2 in Signers([4]);
    Subset({1}, Signers([2]));
    Subset({2}, Signers([4]));
    forall j | j in Signers([2]) && j in Signers([4]) ensures false {
      assert j < 8;
      OneBit(j);
    }
  }

  lemma OneBit(j: nat)
    requires j < 8
    ensures !(Bit(2, j) && Bit(4, j))
  {
    assert Bit(2, j) == (j == 1) by {
      if j > 1 {
        NoBit(j - 2);
      }
    }
    if j == 1 {
      assert Bit(4, 1) == Bit(2, 0);
    }
  }

  lemma {:induction false} NoBit(k: nat)
    ensures !Bit(0, k)
    decreases k
  {
    if k > 0 {
      NoBit(k - 1);
    }
  }
}
