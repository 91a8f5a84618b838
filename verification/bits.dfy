/**
 Fixed-width arithmetic as the generated Go code uses it: powers of two, the
 bitwise "or" on unsigned values, bit length, and two's-complement readings.
 Unsigned words are naturals; truncation to a width is always written out.
 */
module Bits {

  type byte = x: int | 0 <= x < 256

  const TWO_31 := 0x8000_0000
  const TWO_32 := 0x1_0000_0000
  const TWO_63 := 0x8000_0000_0000_0000
  const TWO_64 := 0x1_0000_0000_0000_0000

  type uint32 = x: int | 0 <= x < TWO_32
  type uint64 = x: int | 0 <= x < TWO_64
  type int32 = x: int | -TWO_31 <= x < TWO_31
  type int64 = x: int | -TWO_63 <= x < TWO_63

  /** x * 2^s. */
  function Shl(x: nat, s: nat): nat {
    if s == 0 then x else 2 * Shl(x, s - 1)
  }

  function Pow2(n: nat): (p: nat)
    ensures p >= 1
  {
    if n == 0 then 1 else 2 * Pow2(n - 1)
  }

  /** Bitwise or of two unsigned words of any width. */
  function BitOr(a: nat, b: nat): nat {
    if a == 0 && b == 0 then 0
    else (if a % 2 == 1 || b % 2 == 1 then 1 else 0) + 2 * BitOr(a / 2, b / 2)
  }

  /** The number of bits needed to write x; 0 for 0 (Go's bits.Len64). */
  function BitLen(x: nat): nat {
    if x == 0 then 0 else 1 + BitLen(x / 2)
  }

  /** The w low bits of x: what an unsigned word of w bits keeps of it. */
  function Low(x: nat, w: nat): nat {
    if w == 0 then 0 else x % 2 + 2 * Low(x / 2, w - 1)
  }

  /** x << s in an unsigned word of w bits; 0 once s reaches w, as in Go. */
  function ShiftLeft(x: nat, s: nat, w: nat): nat {
    Low(Shl(x, s), w)
  }

  /** The two's-complement reading of a 32-bit word. */
  function ToInt32(x: uint32): int32 {
    if x < TWO_31 then x else x - TWO_32
  }

  /** The two's-complement reading of a 64-bit word. */
  function ToInt64(x: uint64): int64 {
    if x < TWO_63 then x else x - TWO_64
  }

  /** uint64(x) for a signed x: negative values are sign-extended. */
  function ToUint64(x: int): uint64
    requires -TWO_63 <= x < TWO_64
  {
    if x < 0 then x + TWO_64 else x
  }

  /** The sum of two non-negative Go ints, wrapping to a negative value. */
  function AddInt(a: nat, b: nat): int
    requires a < TWO_63 && b < TWO_63
  {
    ToInt64(a + b)
  }

  lemma ShlSevenMore(x: nat, s: nat)
    ensures Shl(x, s + 7) == 128 * Shl(x, s)
    ensures Pow2(s + 7) == 128 * Pow2(s)
  {
    assert Shl(x, s + 2) == 4 * Shl(x, s) && Pow2(s + 2) == 4 * Pow2(s);
    assert Shl(x, s + 4) == 4 * Shl(x, s + 2) && Pow2(s + 4) == 4 * Pow2(s + 2);
    assert Shl(x, s + 6) == 4 * Shl(x, s + 4) && Pow2(s + 6) == 4 * Pow2(s + 4);
  }

  lemma {:induction false} ShlMonotone(x: nat, y: nat, s: nat)
    requires x <= y
    ensures Shl(x, s) <= Shl(y, s)
  {
    if s > 0 {
      ShlMonotone(x, y, s - 1);
    }
  }

  lemma {:induction false} ShlIsTimes(x: nat, s: nat)
    ensures Shl(x, s) == x * Pow2(s)
  {
    if s > 0 {
      ShlIsTimes(x, s - 1);
    }
  }

  lemma Pow2Widths(w: nat)
    requires w == 32 || w == 64 || w == 70
    ensures Pow2(w) == if w == 32 then TWO_32 else if w == 64 then TWO_64 else 64 * TWO_64
  {
    Pow2SixteenMore(w - 16);
    Pow2SixteenMore(w - 32);
    if w > 32 {
      Pow2SixteenMore(w - 48);
      Pow2SixteenMore(w - 64);
    }
  }

  lemma Pow2SixteenMore(n: nat)
    ensures Pow2(n + 16) == 0x1_0000 * Pow2(n)
  {
    ShlSevenMore(0, n);
    ShlSevenMore(0, n + 7);
  }

  lemma {:induction false} BitOrZero(a: nat)
    ensures BitOr(a, 0) == a
  {
    if a > 0 {
      BitOrZero(a / 2);
    }
  }

  lemma {:induction false} BitOrLeftZero(b: nat)
    ensures BitOr(0, b) == b
  {
    if b > 0 {
      BitOrLeftZero(b / 2);
    }
  }

  /**
   One step of a varint loop in a word of w bits: the word holds the low bits
   of some v of at most s bits; or-ing in x << s makes it hold those of
   v + x * 2^s. Bits shifted past the width are lost on both sides.
   */
  lemma {:induction false} OrShiftInto(v: nat, x: nat, s: nat, w: nat)
    requires v < Pow2(s)
    ensures BitOr(Low(v, w), ShiftLeft(x, s, w)) == Low(v + Shl(x, s), w)
    decreases s
  {
    if w == 0 {
    } else if s == 0 {
      LowZero(w);
      BitOrLeftZero(Low(x, w));
    } else {
      var z := Shl(x, s - 1);
      OrShiftInto(v / 2, x, s - 1, w - 1);
      calc {
        BitOr(Low(v, w), Low(2 * z, w));
        { LowHalves(v, z, w); }
        BitOr(v % 2 + 2 * Low(v / 2, w - 1), 2 * Low(z, w - 1));
        { OrHalves(v, Low(v / 2, w - 1), Low(z, w - 1)); }
        v % 2 + 2 * BitOr(Low(v / 2, w - 1), Low(z, w - 1));
        { OrShiftInto(v / 2, x, s - 1, w - 1); }
        v % 2 + 2 * Low(v / 2 + z, w - 1);
        { LowHalves(v, z, w); }
        Low(v + 2 * z, w);
      }
    }
  }

  lemma LowHalves(v: nat, z: nat, w: nat)
    requires w > 0
    ensures Low(v, w) == v % 2 + 2 * Low(v / 2, w - 1)
    ensures Low(2 * z, w) == 2 * Low(z, w - 1)
    ensures Low(v + 2 * z, w) == v % 2 + 2 * Low(v / 2 + z, w - 1)
  {
    assert (2 * z) / 2 == z && (2 * z) % 2 == 0;
    assert (v + 2 * z) / 2 == v / 2 + z && (v + 2 * z) % 2 == v % 2;
  }

  lemma OrHalves(v: nat, a: nat, b: nat)
    ensures BitOr(v % 2 + 2 * a, 2 * b) == v % 2 + 2 * BitOr(a, b)
  {
    var x, y := v % 2 + 2 * a, 2 * b;
    assert x / 2 == a && x % 2 == v % 2 && y / 2 == b && y % 2 == 0;
  }

  lemma {:induction false} LowZero(w: nat)
    ensures Low(0, w) == 0
  {
    if w > 0 {
      LowZero(w - 1);
    }
  }

  /** Keeping w bits is reduction modulo 2^w. */
  lemma {:induction false} LowIsMod(x: nat, w: nat)
    ensures Low(x, w) == x % Pow2(w)
  {
    if w > 0 {
      LowIsMod(x / 2, w - 1);
      ModDouble(x, Pow2(w - 1));
    }
  }

  lemma ModDouble(x: nat, p: nat)
    requires p > 0
    ensures x % (2 * p) == x % 2 + 2 * ((x / 2) % p)
  {
    var q, r := (x / 2) / p, (x / 2) % p;
    assert x == 2 * (q * p + r) + x % 2;
    assert x == q * (2 * p) + (2 * r + x % 2);
    DivUnique(x, 2 * p, q, 2 * r + x % 2);
  }

  lemma DivUnique(x: int, m: nat, q: int, r: nat)
    requires m > 0 && x == q * m + r && r < m
    ensures x / m == q && x % m == r
  {
    var d := x / m - q;
    assert d * m == r - x % m;
    MulSign(d, m);
  }

  lemma MulSign(d: int, m: nat)
    ensures d >= 1 ==> d * m >= m
    ensures d <= -1 ==> d * m + m <= 0
  {
  }
}
