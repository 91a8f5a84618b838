/**
 The printed keys of the repository: equivalent proofs under hash-shard and
 nonce-shard, deduplication under epoch_hash. A Go string is a sequence of
 bytes; every character here is one byte.
 */
module Keys {
  import opened Bits

  datatype Error = InvalidKey | BadHex | NotANumber | NumberOutOfRange

  datatype HashShard = HashShard(hash: seq<byte>, shard: uint32) | NoHashShard(error: Error)
  datatype NonceShard = NonceShard(nonce: uint64, shard: uint32) | NoNonceShard(error: Error)
  datatype Number = Number(value: int64) | NoNumber(error: Error)
  datatype Decoded = Bytes(bytes: seq<byte>) | NoBytes

  // ----- printing -----

  /** A hexadecimal digit, lower case. */
  function Digit(d: nat): (c: char)
    requires d < 16
    ensures HexValue(c) == d && (d < 10 ==> IsDigit(c)) && c != '-' && c != '_'
  {
    if d < 10 then '0' + d as char else 'a' + (d - 10) as char
  }

  /** %d of a natural number. */
  function Decimal(n: nat): (s: string)
    ensures |s| > 0
  {
    if n < 10 then [Digit(n)] else Decimal(n / 10) + [Digit(n % 10)]
  }

  /** hex.EncodeToString, and %x of a byte slice. */
  function Hex(bytes: seq<byte>): string {
    if bytes == [] then [] else [Digit(bytes[0] / 16), Digit(bytes[0] % 16)] + Hex(bytes[1..])
  }

  function GetEquivalentProofNonceShardKey(nonce: uint64, shard: uint32): string {
    Decimal(nonce) + "-" + Decimal(shard)
  }

  function GetEquivalentProofHashShardKey(hash: seq<byte>, shard: uint32): string {
    Hex(hash) + "-" + Decimal(shard)
  }

  function DeduplicationKey(epoch: uint32, hash: seq<byte>): string {
    Decimal(epoch) + "_" + Hex(hash)
  }

  // ----- parsing -----

  /** strings.Split on a one-byte separator. */
  function Split(s: string, sep: char): (parts: seq<string>)
    ensures |parts| > 0
  {
    if s == [] then [[]]
    else
      var rest := Split(s[1..], sep);
      if s[0] == sep then [[]] + rest else [[s[0]] + rest[0]] + rest[1..]
  }

  predicate IsDigit(c: char) {
    '0' <= c <= '9'
  }

  /** The value of a row of decimal digits. */
  function Value(digits: string): nat
    requires forall c | c in digits :: IsDigit(c)
  {
    if digits == [] then 0
    else
      var n := |digits| - 1;
      assert IsDigit(digits[n]);
      10 * Value(digits[..n]) + (digits[n] as int - '0' as int)
  }

  /** strconv.Atoi on a 64-bit machine: an optional sign, then decimal digits. */
  function Atoi(s: string): Number {
    var signed := s != [] && (s[0] == '+' || s[0] == '-');
    var digits := if signed then s[1..] else s;
    if digits == [] || !(forall c | c in digits :: IsDigit(c)) then NoNumber(NotANumber)
    else
      var v: int := Value(digits);
      var n := if signed && s[0] == '-' then -v else v;
      if -TWO_63 <= n < TWO_63 then Number(n) else NoNumber(NumberOutOfRange)
  }

  /** The value of a hexadecimal digit in either case; 16 for any other character. */
  function HexValue(c: char): (v: nat)
    ensures v <= 16
  {
    if '0' <= c <= '9' then c as int - '0' as int
    else if 'a' <= c <= 'f' then 10 + c as int - 'a' as int
    else if 'A' <= c <= 'F' then 10 + c as int - 'A' as int
    else 16
  }

  /** hex.DecodeString. */
  function Unhex(s: string): Decoded {
    if s == [] then Bytes([])
    else if |s| == 1 || HexValue(s[0]) == 16 || HexValue(s[1]) == 16 then NoBytes
    else
      match Unhex(s[2..])
      case NoBytes => NoBytes
      case Bytes(rest) => Bytes([16 * HexValue(s[0]) + HexValue(s[1])] + rest)
  }

  function GetHashAndShardFromKey(key: string): HashShard {
    var parts := Split(key, '-');
    if |parts| != 2 then NoHashShard(InvalidKey)
    else
      match Unhex(parts[0])
      case NoBytes => NoHashShard(BadHex)
      case Bytes(hash) =>
        match Atoi(parts[1])
        case NoNumber(e) => NoHashShard(e)
        case Number(shard) => HashShard(hash, shard % TWO_32)
  }

  function GetNonceAndShardFromKey(key: string): NonceShard {
    var parts := Split(key, '-');
    if |parts| != 2 then NoNonceShard(InvalidKey)
    else
      match Atoi(parts[0])
      case NoNumber(e) => NoNonceShard(e)
      case Number(nonce) =>
        match Atoi(parts[1])
        case NoNumber(e) => NoNonceShard(e)
        case Number(shard) => NonceShard(nonce % TWO_64, shard % TWO_32)
  }

  // ----- round trips -----

  predicate AllDigits(s: string) {
    forall c | c in s :: IsDigit(c)
  }

  lemma {:induction false} DecimalDigits(n: nat)
    ensures AllDigits(Decimal(n)) && Value(Decimal(n)) == n
    decreases n
  {
    if n < 10 {
      assert Decimal(n)[..0] == [];
    } else {
      DecimalDigits(n / 10);
      assert Decimal(n)[..|Decimal(n)| - 1] == Decimal(n / 10);
    }
  }

  /** Printed numbers are read back, unless they do not fit a signed 64-bit integer. */
  lemma AtoiDecimal(n: nat)
    ensures Atoi(Decimal(n)) == if n < TWO_63 then Number(n) else NoNumber(NumberOutOfRange)
  {
    DecimalDigits(n);
    assert Decimal(n)[0] in Decimal(n);
  }

  lemma {:induction false} UnhexHex(bytes: seq<byte>)
    ensures Unhex(Hex(bytes)) == Bytes(bytes)
    decreases |bytes|
  {
    if bytes != [] {
      UnhexHex(bytes[1..]);
      assert Hex(bytes)[2..] == Hex(bytes[1..]);
      assert bytes == [bytes[0]] + bytes[1..];
    }
  }

  lemma {:induction false} HexHasNoSeparator(bytes: seq<byte>)
    ensures '-' !in Hex(bytes) && '_' !in Hex(bytes)
    decreases |bytes|
  {
    if bytes != [] {
      HexHasNoSeparator(bytes[1..]);
    }
  }

  lemma {:induction false} SplitNone(s: string, sep: char)
    requires sep !in s
    ensures Split(s, sep) == [s]
    decreases |s|
  {
    if s != [] {
      SplitNone(s[1..], sep);
      assert s == [s[0]] + s[1..];
    }
  }

  /** A separator between two parts without one is where the string splits. */
  lemma {:induction false} SplitOnce(a: string, b: string, sep: char)
    requires sep !in a && sep !in b
    ensures Split(a + [sep] + b, sep) == [a, b]
    decreases |a|
  {
    var s := a + [sep] + b;
    if a == [] {
      assert s[1..] == b;
      SplitNone(b, sep);
    } else {
      assert s[1..] == a[1..] + [sep] + b;
      SplitOnce(a[1..], b, sep);
      assert a == [a[0]] + a[1..];
    }
  }

  lemma NoSeparator(n: nat, bytes: seq<byte>)
    ensures '-' !in Decimal(n) && '-' !in Hex(bytes) && '_' !in Decimal(n) && '_' !in Hex(bytes)
  {
    DecimalDigits(n);
    HexHasNoSeparator(bytes);
  }

  /** A shard number that was never printed is cut to its low 32 bits, not refused. */
  lemma LargeShardWraps(hash: seq<byte>, n: nat)
    ensures GetHashAndShardFromKey(Hex(hash) + "-" + Decimal(n)) ==
            if n < 0x8000_0000_0000_0000 then HashShard(hash, n % 0x1_0000_0000) else NoHashShard(NumberOutOfRange)
  {
    NoSeparator(n, hash);
    SplitOnce(Hex(hash), Decimal(n), '-');
    UnhexHex(hash);
    AtoiDecimal(n);
  }

  /** Every printed hash-shard key is read back. */
  lemma HashShardRoundTrip(hash: seq<byte>, shard: uint32)
    ensures GetHashAndShardFromKey(GetEquivalentProofHashShardKey(hash, shard)) == HashShard(hash, shard)
  {
    LargeShardWraps(hash, shard);
  }

  /** A printed nonce-shard key is read back exactly when the nonce is below 2^63; otherwise it is refused. */
  lemma NonceShardRoundTrip(nonce: uint64, shard: uint32)
    ensures GetNonceAndShardFromKey(GetEquivalentProofNonceShardKey(nonce, shard)) ==
            if nonce < 0x8000_0000_0000_0000 then NonceShard(nonce, shard) else NoNonceShard(NumberOutOfRange)
  {
    NoSeparator(nonce, []);
    NoSeparator(shard, []);
    SplitOnce(Decimal(nonce), Decimal(shard), '-');
    AtoiDecimal(nonce);
    AtoiDecimal(shard);
    PairRead(GetEquivalentProofNonceShardKey(nonce, shard), Decimal(nonce), Decimal(shard));
  }

  lemma PairRead(key: string, a: string, b: string)
    requires Split(key, '-') == [a, b]
    ensures GetNonceAndShardFromKey(key) ==
            match Atoi(a)
            case NoNumber(e) => NoNonceShard(e)
            case Number(nonce) =>
              match Atoi(b)
              case NoNumber(e) => NoNonceShard(e)
              case Number(shard) => NonceShard(nonce % TWO_64, shard % TWO_32)
  {
  }

  // ----- what printed keys look like -----

  /** Hexadecimal is two lower-case digits a byte, the high one first. */
  lemma {:induction false} HexDigits(bytes: seq<byte>, k: nat)
    requires k < |bytes|
    ensures |Hex(bytes)| == 2 * |bytes|
    ensures Hex(bytes)[2 * k] == "0123456789abcdef"[bytes[k] / 16]
    ensures Hex(bytes)[2 * k + 1] == "0123456789abcdef"[bytes[k] % 16]
    decreases |bytes|
  {
    var rest := bytes[1..];
    DigitChar(bytes[0] / 16);
    DigitChar(bytes[0] % 16);
    if k > 0 {
      HexDigits(rest, k - 1);
    } else if rest != [] {
      HexDigits(rest, 0);
    }
  }

  lemma DigitChar(d: nat)
    requires d < 16
    ensures Digit(d) == "0123456789abcdef"[d]
  {
  }

  function Pow10(k: nat): (p: nat)
    ensures p > 0
  {
    if k == 0 then 1 else 10 * Pow10(k - 1)
  }

  /** Decimal digit k, counted from the right, is that of 10^k; there are no leading zeros. */
  lemma {:induction false} DecimalDigit(n: nat, k: nat)
    requires k < |Decimal(n)|
    ensures Decimal(n)[|Decimal(n)| - 1 - k] == "0123456789"[n / Pow10(k) % 10]
    ensures Decimal(n)[0] == '0' ==> n == 0
    decreases n
  {
    DigitChar(n % 10);
    if n >= 10 {
      if k > 0 {
        DecimalDigit(n / 10, k - 1);
        DivideTwice(n, Pow10(k - 1));
      } else {
        DecimalDigit(n / 10, 0);
      }
    }
  }

  lemma DivideTwice(n: nat, b: nat)
    requires b > 0
    ensures n / 10 / b == n / (10 * b)
  {
    var q, r := n / 10, n % 10;
    var q2, r2 := q / b, q % b;
    assert q == q2 * b + r2;
    Associate(q2, b);
    DivUnique(n, 10 * b, q2, 10 * r2 + r);
  }

  lemma Associate(q: nat, b: nat)
    ensures q * (10 * b) == 10 * (q * b)
  {
  }

  function Count(s: string, c: char): nat {
    if s == [] then 0 else (if s[0] == c then 1 else 0) + Count(s[1..], c)
  }

  /** A key is refused as malformed exactly if it does not have one hyphen. */
  lemma OneHyphenIff(key: string)
    ensures GetHashAndShardFromKey(key) == NoHashShard(InvalidKey) <==> Count(key, '-') != 1
    ensures GetNonceAndShardFromKey(key) == NoNonceShard(InvalidKey) <==> Count(key, '-') != 1
  {
    SplitCount(key, '-');
  }

  lemma {:induction false} SplitCount(s: string, sep: char)
    ensures |Split(s, sep)| == Count(s, sep) + 1
    decreases |s|
  {
    if s != [] {
      SplitCount(s[1..], sep);
    }
  }

  /** Hexadecimal is read exactly if it has an even number of digits, in either case. */
  lemma {:induction false} UnhexIff(s: string)
    ensures Unhex(s) == NoBytes <==> |s| % 2 == 1 || exists c | c in s :: c !in "0123456789abcdefABCDEF"
    ensures Unhex(s).Bytes? ==> 2 * |Unhex(s).bytes| == |s|
    decreases |s|
  {
    if |s| >= 2 {
      UnhexIff(s[2..]);
      HexChar(s[0]);
      HexChar(s[1]);
      assert s == [s[0], s[1]] + s[2..];
      assert forall c :: c in s <==> c == s[0] || c == s[1] || c in s[2..];
    } else if |s| == 1 {
      assert |s| % 2 == 1;
    }
  }

  lemma HexChar(c: char)
    ensures HexValue(c) < 16 <==> c in "0123456789abcdefABCDEF"
  {
    var all := "0123456789abcdefABCDEF";
    assert all[0] == '0' && all[1] == '1' && all[2] == '2' && all[3] == '3' && all[4] == '4' && all[5] == '5';
    assert all[6] == '6' && all[7] == '7' && all[8] == '8' && all[9] == '9' && all[10] == 'a' && all[11] == 'b';
    assert all[12] == 'c' && all[13] == 'd' && all[14] == 'e' && all[15] == 'f' && all[16] == 'A' && all[17] == 'B';
    assert all[18] == 'C' && all[19] == 'D' && all[20] == 'E' && all[21] == 'F';
  }

  /** A plus sign in front changes nothing. */
  lemma AtoiPlus(s: string, n: nat)
    requires s == ['+'] + Decimal(n)
    ensures Atoi(s) == if n < 0x8000_0000_0000_0000 then Number(n) else NoNumber(NumberOutOfRange)
  {
    DecimalDigits(n);
    assert s[1..] == Decimal(n);
  }

  /** A minus sign negates. */
  lemma AtoiMinus(s: string, n: nat)
    requires s == ['-'] + Decimal(n)
    ensures Atoi(s) == if n <= 0x8000_0000_0000_0000 then Number(0 - n) else NoNumber(NumberOutOfRange)
  {
    DecimalDigits(n);
    assert s[1..] == Decimal(n);
  }

  /** The separators, and the order of the parts. */
  lemma PrintedExamples()
    ensures GetEquivalentProofNonceShardKey(5, 7) == "5-7"
    ensures GetEquivalentProofHashShardKey([0xab], 7) == "ab-7"
    ensures DeduplicationKey(3, [0xab]) == "3_ab"
  {
    DigitChar(3);
    DigitChar(5);
    DigitChar(7);
    DigitChar(10);
    DigitChar(11);
    assert Hex([0xab]) == "ab" by {
      assert [0xab as byte][1..] == [];
    }
  }

  // ----- different things have different keys -----

  lemma HashShardInjective(hash: seq<byte>, shard: uint32, hash': seq<byte>, shard': uint32)
    requires GetEquivalentProofHashShardKey(hash, shard) == GetEquivalentProofHashShardKey(hash', shard')
    ensures hash == hash' && shard == shard'
  {
    HashShardRoundTrip(hash, shard);
    HashShardRoundTrip(hash', shard');
  }

  /** Also for the nonces whose keys cannot be read back. */
  lemma NonceShardInjective(nonce: uint64, shard: uint32, nonce': uint64, shard': uint32)
    requires GetEquivalentProofNonceShardKey(nonce, shard) == GetEquivalentProofNonceShardKey(nonce', shard')
    ensures nonce == nonce' && shard == shard'
  {
    PrintedParts(nonce, shard);
    PrintedParts(nonce', shard');
  }

  lemma PrintedParts(a: nat, b: nat)
    ensures var parts := Split(Decimal(a) + "-" + Decimal(b), '-');
            && |parts| == 2 && AllDigits(parts[0]) && AllDigits(parts[1])
            && Value(parts[0]) == a && Value(parts[1]) == b
  {
    NoSeparator(a, []);
    NoSeparator(b, []);
    SplitOnce(Decimal(a), Decimal(b), '-');
    DecimalDigits(a);
    DecimalDigits(b);
  }

  /** The deduplication cache confuses no two pairs of an epoch and a miniblock hash. */
  lemma DeduplicationInjective(epoch: uint32, hash: seq<byte>, epoch': uint32, hash': seq<byte>)
    requires DeduplicationKey(epoch, hash) == DeduplicationKey(epoch', hash')
    ensures epoch == epoch' && hash == hash'
  {
    NoSeparator(epoch, hash);
    NoSeparator(epoch', hash');
    SplitOnce(Decimal(epoch), Hex(hash), '_');
    SplitOnce(Decimal(epoch'), Hex(hash'), '_');
    DecimalDigits(epoch);
    DecimalDigits(epoch');
    UnhexHex(hash);
    UnhexHex(hash');
  }
}
