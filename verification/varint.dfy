/**
 Base-128 varints: the writer that fills a buffer in place, its size formula,
 the reading loops of every generated Unmarshal, and the laws tying them together.
 */
module Varint {
  import opened Bits

  /** The error returns shared by Unmarshal and skip. */
  datatype Error =
    | UnexpectedEof
    | IntOverflow
    | InvalidLength
    | UnexpectedEndOfGroup
    | IllegalWireType
    | EndGroupTag
    | IllegalTag
    | WrongWireType

  /** A count, position or value read from an input, or the error met there. */
  datatype Result = Ok(value: nat) | Err(error: Error)

  /** Seven bits a byte, least significant first, a high bit on all but the last. */
  function EncodeVarint(v: nat): (s: seq<byte>)
    ensures |s| >= 1
  {
    if v < 128 then [v] else [v % 128 + 128] + EncodeVarint(v / 128)
  }

  /** The size formula of the generated sov functions. */
  function Sov(x: nat): nat {
    (BitLen(BitOr(x, 1)) + 6) / 7
  }

  /** The unbounded number that the low seven bits of the n bytes from i spell. */
  function VarintSum(d: seq<byte>, i: nat, n: nat): nat
    requires i + n <= |d|
    decreases n, d
  {
    if n == 0 then 0 else VarintSum(d, i, n - 1) + Shl(d[i + n - 1] % 128, 7 * (n - 1))
  }

  /**
   Where a varint loop that started at i stops when its first k bytes had the
   high bit set: after how many bytes, or at which error. Ten bytes is the most
   it reads.
   */
  function Scan(d: seq<byte>, i: nat, k: nat): (r: Result)
    ensures r.Ok? ==> k < r.value <= 10 && i + r.value <= |d|
    decreases |d| - i - k
  {
    if k >= 10 then Err(IntOverflow)
    else if i + k >= |d| then Err(UnexpectedEof)
    else if d[i + k] < 128 then Ok(k + 1)
    else Scan(d, i, k + 1)
  }

  /** A byte string that is exactly one varint the loops accept. */
  predicate IsVarint(s: seq<byte>) {
    Scan(s, 0, 0) == Ok(|s|)
  }

  /** What a word of 32 or 64 bits holds of a varint. */
  function Word(sum: nat, w: nat): nat {
    if w == 32 then sum % TWO_32 else sum % TWO_64
  }

  // ----- where byte strings lie in an input -----

  /** The n bytes of d from i are those of e from j. */
  ghost predicate Same(d: seq<byte>, i: nat, e: seq<byte>, j: nat, n: nat)
    decreases n, d
  {
    i + n <= |d| && j + n <= |e| && (n > 0 ==> d[i + n - 1] == e[j + n - 1] && Same(d, i, e, j, n - 1))
  }

  /** s lies in d at position i. */
  ghost predicate At(d: seq<byte>, i: nat, s: seq<byte>) {
    Same(s, 0, d, i, |s|)
  }

  lemma {:induction false} SameIndex(d: seq<byte>, i: nat, e: seq<byte>, j: nat, n: nat, k: nat)
    requires Same(d, i, e, j, n) && k < n
    ensures i + n <= |d| && j + n <= |e| && d[i + k] == e[j + k]
    decreases n
  {
    if k < n - 1 {
      SameIndex(d, i, e, j, n - 1, k);
    }
  }

  lemma {:induction false} SamePrefix(d: seq<byte>, i: nat, e: seq<byte>, j: nat, n: nat, m: nat)
    requires Same(d, i, e, j, n) && m <= n
    ensures Same(d, i, e, j, m)
    decreases n
  {
    if m < n {
      SamePrefix(d, i, e, j, n - 1, m);
    }
  }

  lemma {:induction false} SameIntro(d: seq<byte>, i: nat, e: seq<byte>, j: nat, n: nat)
    requires i + n <= |d| && j + n <= |e| && d[i..i + n] == e[j..j + n]
    ensures Same(d, i, e, j, n)
    decreases n
  {
    if n > 0 {
      assert d[i..i + n][n - 1] == e[j..j + n][n - 1];
      assert d[i..i + n - 1] == d[i..i + n][..n - 1] == e[j..j + n][..n - 1] == e[j..j + n - 1];
      SameIntro(d, i, e, j, n - 1);
    }
  }

  lemma {:induction false} SameSlice(d: seq<byte>, i: nat, e: seq<byte>, j: nat, n: nat)
    requires Same(d, i, e, j, n)
    ensures i + n <= |d| && j + n <= |e| && d[i..i + n] == e[j..j + n]
    decreases n
  {
    if n > 0 {
      SameSlice(d, i, e, j, n - 1);
      assert d[i..i + n] == d[i..i + n - 1] + [d[i + n - 1]];
      assert e[j..j + n] == e[j..j + n - 1] + [e[j + n - 1]];
    }
  }

  lemma {:induction false} SameConcat(s: seq<byte>, t: seq<byte>, d: seq<byte>, i: nat, n: nat)
    requires n <= |t|
    ensures Same(s + t, 0, d, i, |s| + n) <==> At(d, i, s) && Same(t, 0, d, i + |s|, n)
    decreases n
  {
    if n == 0 {
      SameTake(s, t, d, i, |s|);
    } else {
      SameConcat(s, t, d, i, n - 1);
      assert (s + t)[|s| + n - 1] == t[n - 1];
    }
  }

  lemma {:induction false} SameTake(s: seq<byte>, t: seq<byte>, d: seq<byte>, i: nat, n: nat)
    requires n <= |s|
    ensures Same(s + t, 0, d, i, n) <==> Same(s, 0, d, i, n)
    decreases n
  {
    if n > 0 {
      SameTake(s, t, d, i, n - 1);
      assert (s + t)[n - 1] == s[n - 1];
    }
  }

  lemma AtSplit(d: seq<byte>, i: nat, s: seq<byte>, t: seq<byte>)
    ensures At(d, i, s + t) <==> At(d, i, s) && At(d, i + |s|, t)
  {
    SameConcat(s, t, d, i, |t|);
  }

  lemma {:induction false} ScanSame(d: seq<byte>, i: nat, e: seq<byte>, j: nat, k: nat)
    requires Scan(d, i, k).Ok? && Same(d, i, e, j, Scan(d, i, k).value)
    ensures Scan(e, j, k) == Scan(d, i, k)
    decreases |d| - i - k
  {
    SameIndex(d, i, e, j, Scan(d, i, k).value, k);
    if d[i + k] >= 128 {
      ScanSame(d, i, e, j, k + 1);
    }
  }

  lemma {:induction false} VarintSumSame(d: seq<byte>, i: nat, e: seq<byte>, j: nat, n: nat)
    requires Same(d, i, e, j, n)
    ensures VarintSum(d, i, n) == VarintSum(e, j, n)
    decreases n
  {
    if n > 0 {
      VarintSumSame(d, i, e, j, n - 1);
    }
  }

  // ----- the size formula -----

  lemma {:induction false} BitLenSevenMore(x: nat)
    requires x >= 128
    ensures BitLen(x) == 7 + BitLen(x / 128)
  {
    var y := x / 2 / 2;
    assert BitLen(x) == 2 + BitLen(y);
    var z := y / 2 / 2;
    assert BitLen(y) == 2 + BitLen(z);
    var u := z / 2 / 2;
    assert BitLen(z) == 2 + BitLen(u);
    assert BitLen(u) == 1 + BitLen(u / 2);
  }

  lemma BitLenSmall(x: nat)
    requires 0 < x < 128
    ensures 1 <= BitLen(x) <= 7
  {
    var y := x / 2 / 2;
    var z := y / 2 / 2;
    assert z < 8;
    assert BitLen(z) <= 3;
    assert BitLen(y) <= 5;
  }

  /** Or-ing a 1 into the lowest bit never changes the higher bits. */
  lemma BitOrOne(x: nat)
    ensures BitOr(x, 1) == if x % 2 == 0 then x + 1 else x
  {
    BitOrZero(x / 2);
  }

  lemma BitLenIgnoresLowBit(x: nat)
    requires x > 0
    ensures BitLen(BitOr(x, 1)) == BitLen(x)
  {
    BitOrOne(x);
  }

  /** The size formula is exactly the number of bytes written. */
  lemma {:induction false} SovIsExact(x: nat)
    ensures Sov(x) == |EncodeVarint(x)|
  {
    if x < 128 {
      BitOrOne(x);
      BitLenSmall(BitOr(x, 1));
    } else {
      SovIsExact(x / 128);
      BitLenIgnoresLowBit(x);
      BitLenIgnoresLowBit(x / 128);
      BitLenSevenMore(x);
      CeilSevenths(BitLen(x / 128));
    }
  }

  lemma CeilSevenths(l: nat)
    ensures (7 + l + 6) / 7 == 1 + (l + 6) / 7
  {
  }

  // ----- writer and reader undo each other -----

  lemma {:induction false} EncodeVarintShort(v: nat, k: nat)
    requires k > 0 && v < Pow2(7 * k)
    ensures |EncodeVarint(v)| <= k
  {
    ShlSevenMore(0, 7 * (k - 1));
    if v >= 128 {
      EncodeVarintShort(v / 128, k - 1);
    }
  }

  lemma {:induction false} VarintSumCons(b: byte, s: seq<byte>, n: nat)
    requires n <= |s|
    ensures VarintSum([b] + s, 0, n + 1) == b % 128 + 128 * VarintSum(s, 0, n)
    decreases n
  {
    if n == 0 {
      assert VarintSum([b] + s, 0, 1) == VarintSum([b] + s, 0, 0) + b % 128;
    } else {
      VarintSumCons(b, s, n - 1);
      ShlSevenMore(s[n - 1] % 128, 7 * (n - 1));
    }
  }

  lemma {:induction false} EncodeVarintValue(v: nat)
    ensures VarintSum(EncodeVarint(v), 0, |EncodeVarint(v)|) == v
  {
    if v < 128 {
      VarintSumCons(v, [], 0);
      assert [v] + [] == [v];
    } else {
      EncodeVarintValue(v / 128);
      VarintSumCons(v % 128 + 128, EncodeVarint(v / 128), |EncodeVarint(v / 128)|);
    }
  }

  lemma {:induction false} EncodeVarintShape(v: nat)
    ensures var s := EncodeVarint(v);
            s[|s| - 1] < 128 && forall j :: 0 <= j < |s| - 1 ==> s[j] >= 128
  {
    if v >= 128 {
      EncodeVarintShape(v / 128);
    }
  }

  lemma {:induction false} ScanShape(d: seq<byte>, k: nat)
    requires k < |d| <= 10 && d[|d| - 1] < 128
    requires forall j :: k <= j < |d| - 1 ==> d[j] >= 128
    ensures Scan(d, 0, k) == Ok(|d|)
    decreases |d| - k
  {
    if k + 1 < |d| {
      ScanShape(d, k + 1);
    }
  }

  /** A written uint64 is one varint, and spells its value. */
  lemma WrittenIsVarint(v: nat)
    requires v < TWO_64
    ensures IsVarint(EncodeVarint(v)) && VarintSum(EncodeVarint(v), 0, |EncodeVarint(v)|) == v
  {
    EncodeVarintValue(v);
    EncodeVarintShape(v);
    Pow2Widths(70);
    EncodeVarintShort(v, 10);
    ScanShape(EncodeVarint(v), 0);
  }

  /** A varint lying at position i is what the loops read there. */
  lemma ScanAt(d: seq<byte>, i: nat, s: seq<byte>)
    requires At(d, i, s) && IsVarint(s)
    ensures Scan(d, i, 0) == Ok(|s|) && VarintSum(d, i, |s|) == VarintSum(s, 0, |s|)
  {
    ScanSame(s, 0, d, i, 0);
    VarintSumSame(s, 0, d, i, |s|);
  }

  /** Reading back a written uint64, wherever it lies. */
  lemma ReadWritten(d: seq<byte>, i: nat, v: nat)
    requires v < TWO_64 && At(d, i, EncodeVarint(v))
    ensures Scan(d, i, 0) == Ok(|EncodeVarint(v)|) && VarintSum(d, i, |EncodeVarint(v)|) == v
  {
    WrittenIsVarint(v);
    ScanAt(d, i, EncodeVarint(v));
  }

  // ----- the reading loops -----

  lemma {:induction false} VarintSumBound(d: seq<byte>, i: nat, n: nat)
    requires i + n <= |d|
    ensures VarintSum(d, i, n) < Pow2(7 * n)
    decreases n
  {
    if n > 0 {
      VarintSumBound(d, i, n - 1);
      ShlSevenMore(0, 7 * (n - 1));
      ShlMonotone(d[i + n - 1] % 128, 127, 7 * (n - 1));
      ShlIsTimes(127, 7 * (n - 1));
    }
  }

  lemma WordIsLow(sum: nat, w: nat)
    requires w == 32 || w == 64
    ensures Low(sum, w) == Word(sum, w)
  {
    Pow2Widths(w);
    LowIsMod(sum, w);
  }

  /** acc |= T(b&0x7F) << shift, where b follows the first n bytes from start. */
  method OrInto(acc: nat, b: byte, shift: nat, w: nat, ghost d: seq<byte>, ghost start: nat, ghost n: nat)
    returns (r: nat)
    requires start + n < |d| && b == d[start + n] && shift == 7 * n
    requires acc == if n == 0 then 0 else Low(VarintSum(d, start, n), w)
    ensures r == Low(VarintSum(d, start, n + 1), w)
  {
    LowZero(w);
    VarintSumBound(d, start, n);
    OrShiftInto(VarintSum(d, start, n), b % 128, shift, w);
    r := BitOr(acc, ShiftLeft(b % 128, shift, w));
  }

  /**
   The varint loop of every scalar and length field, in a word of w bits (32
   for uint32 and int32 fields, 64 otherwise): bytes are or-ed in at growing
   shifts, and shifts past the width of the word are dropped.
   */
  method ReadVarint(d: seq<byte>, start: nat, w: nat) returns (r: Result, next: nat)
    requires start <= |d| && (w == 32 || w == 64)
    ensures var s := Scan(d, start, 0);
            if s.Ok? then next == start + s.value && r == Ok(Word(VarintSum(d, start, s.value), w)) else r == s
  {
    var i, shift, acc := start, 0, 0;
    ghost var n := 0;
    while true
      invariant i == start + n <= |d| && shift == 7 * n && n <= 10
      invariant acc == if n == 0 then 0 else Low(VarintSum(d, start, n), w)
      invariant Scan(d, start, 0) == Scan(d, start, n)
      decreases |d| - i
    {
      if shift >= 64 {
        return Err(IntOverflow), i;
      }
      if i >= |d| {
        return Err(UnexpectedEof), i;
      }
      acc := OrInto(acc, d[i], shift, w, d, start, n);
      i := i + 1;
      n := n + 1;
      if d[i - 1] < 128 {
        WordIsLow(VarintSum(d, start, n), w);
        return Ok(acc), i;
      }
      shift := shift + 7;
    }
  }

  /** The loop of skip over a varint payload: only the bytes' high bits matter. */
  method SkipVarint(d: seq<byte>, start: nat) returns (r: Result)
    ensures r == match Scan(d, start, 0)
                 case Ok(n) => Ok(start + n)
                 case Err(e) => Err(e)
  {
    var i, shift := start, 0;
    ghost var n := 0;
    while true
      invariant i == start + n && shift == 7 * n && n <= 10
      invariant Scan(d, start, 0) == Scan(d, start, n)
      decreases |d| - i
    {
      if shift >= 64 {
        return Err(IntOverflow);
      }
      if i >= |d| {
        return Err(UnexpectedEof);
      }
      i := i + 1;
      n := n + 1;
      if d[i - 1] < 128 {
        return Ok(i);
      }
      shift := shift + 7;
    }
  }

  // ----- the writing loop -----

  lemma Splice(s: seq<byte>, i: nat, j: nat)
    requires i <= j <= |s|
    ensures s == s[..i] + s[i..j] + s[j..]
  {
  }

  method VarintSize(x: nat) returns (n: nat)
    ensures n == |EncodeVarint(x)|
  {
    SovIsExact(x);
    n := Sov(x);
  }

  /**
   Writes v so that it ends just before offset, low seven bits first, and
   returns where it starts. Nothing else in the buffer changes.
   */
  method WriteVarint(a: array<byte>, offset: nat, v: nat) returns (start: nat)
    requires |EncodeVarint(v)| <= offset <= a.Length
    modifies a
    ensures start == offset - |EncodeVarint(v)|
    ensures a[..] == old(a[..start]) + EncodeVarint(v) + old(a[offset..])
  {
    var size := VarintSize(v);
    start := offset - size;
    var i, x := start, v;
    while x >= 128
      invariant start <= i && i + |EncodeVarint(x)| == offset
      invariant a[..start] == old(a[..start]) && a[offset..] == old(a[offset..])
      invariant a[start..i] + EncodeVarint(x) == EncodeVarint(v)
      decreases x
    {
      a[i] := x % 128 + 128;
      assert a[start..i + 1] == a[start..i] + [x % 128 + 128];
      x := x / 128;
      i := i + 1;
    }
    a[i] := x;
    assert a[start..offset] == EncodeVarint(v);
    Splice(a[..], start, offset);
  }
}
