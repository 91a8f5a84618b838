/**
 The wire format in literal numbers: which bytes each field is written as, and
 what the readers do with each wire type. Nothing here speaks through the
 constants and functions that the codecs are built from.
 */
module WireLayout {
  import opened Bits
  import opened Varint
  import opened UnknownFields
  import opened Wire
  import opened WireBuffer
  import opened WireRoundTrip

  // ----- varints -----

  /** Byte k of a varint holds bits 7k to 7k+6, and the high bit unless it is the last. */
  lemma {:induction false} VarintByte(v: nat, k: nat)
    requires k < |EncodeVarint(v)|
    ensures EncodeVarint(v)[k] == v / Pow2(7 * k) % 128 + if k + 1 < |EncodeVarint(v)| then 128 else 0
    decreases v
  {
    if k == 0 {
      assert Pow2(7 * k) == 1;
    } else {
      VarintByte(v / 128, k - 1);
      SevenMoreBits(k);
      DivideTwice(v, Pow2(7 * (k - 1)));
    }
  }

  lemma SevenMoreBits(k: nat)
    requires k > 0
    ensures Pow2(7 * k) == 128 * Pow2(7 * (k - 1))
  {
    ShlSevenMore(0, 7 * (k - 1));
  }

  lemma DivideTwice(v: nat, b: nat)
    requires b > 0
    ensures v / 128 / b == v / (128 * b)
  {
    var q, r := v / 128, v % 128;
    var q2, r2 := q / b, q % b;
    assert q == q2 * b + r2;
    Associate(q2, b);
    DivUnique(v, 128 * b, q2, 128 * r2 + r);
  }

  lemma Associate(q: nat, b: nat)
    ensures q * (128 * b) == 128 * (q * b)
  {
  }

  /** All bytes from one position to another have the high bit. */
  predicate AllHigh(d: seq<byte>, from: nat, to: nat) {
    to <= |d| && forall p | from <= p < to :: d[p] >= 128
  }

  /** A varint is accepted exactly if its first byte below 128 is among the first ten and in the input. */
  lemma ScanIff(d: seq<byte>, i: nat, n: nat)
    ensures Scan(d, i, 0) == Ok(n) <==> 0 < n <= 10 && i + n <= |d| && d[i + n - 1] < 128 && AllHigh(d, i, i + n - 1)
    ensures Scan(d, i, 0) == Err(IntOverflow) <==> AllHigh(d, i, i + 10)
    ensures Scan(d, i, 0) == Err(UnexpectedEof) <==> i + 10 > |d| && (i >= |d| || AllHigh(d, i, |d|))
  {
    ScanFromIff(d, i, 0, n);
  }

  lemma {:induction false} ScanFromIff(d: seq<byte>, i: nat, k: nat, n: nat)
    requires k <= 10 && (k > 0 ==> AllHigh(d, i, i + k))
    ensures Scan(d, i, k) == Ok(n) <==> k < n <= 10 && i + n <= |d| && d[i + n - 1] < 128 && AllHigh(d, i, i + n - 1)
    ensures Scan(d, i, k) == Err(IntOverflow) <==> AllHigh(d, i, i + 10)
    ensures Scan(d, i, k) == Err(UnexpectedEof) <==> i + 10 > |d| && (i >= |d| || AllHigh(d, i, |d|))
    decreases 10 - k
  {
    if k < 10 && i + k < |d| {
      if d[i + k] >= 128 {
        ScanFromIff(d, i, k + 1, n);
      } else if k < n <= 10 && i + n <= |d| {
        assert i + k < i + n - 1 ==> !AllHigh(d, i, i + n - 1);
      }
    }
  }

  // ----- what fields are written as -----

  /**
   A field as it is written: a number that is not zero, a byte string that is not
   empty, or a list of byte strings, each under a tag byte.
   */
  datatype Part = Number(tag: byte, v: nat) | Text(tag: byte, s: seq<byte>) | Pieces(tag: byte, list: seq<seq<byte>>)

  /** A tag byte, a length and as many bytes. */
  function Piece(tag: byte, s: seq<byte>): seq<byte> {
    [tag] + EncodeVarint(|s|) + s
  }

  function PartBytes(part: Part): seq<byte>
    decreases if part.Pieces? then |part.list| else 0
  {
    match part
    case Number(tag, v) => if v == 0 then [] else [tag] + EncodeVarint(v)
    case Text(tag, s) => if s == [] then [] else Piece(tag, s)
    case Pieces(tag, list) => if list == [] then [] else Piece(tag, list[0]) + PartBytes(Pieces(tag, list[1..]))
  }

  function Join(parts: seq<Part>): seq<byte> {
    if parts == [] then [] else PartBytes(parts[0]) + Join(parts[1..])
  }

  /** The 64-bit word of a signed number: negative ones are sign-extended. */
  function Word64(n: int): nat
    requires -0x8000_0000_0000_0000 <= n
  {
    if n < 0 then n + 0x1_0000_0000_0000_0000 else n
  }

  lemma ScalarBytes(num: nat, kind: Kind, n: int)
    requires 0 < num < 16 && InRange(kind, n)
    ensures EncodeField(num, kind, Scalar(n)) == PartBytes(Number(8 * num, Word64(n)))
  {
    TagIsByte(num, VARINT);
  }

  lemma DelimitedBytes(num: nat, s: seq<byte>)
    requires 0 < num < 16
    ensures Delimited(num, s) == Piece(8 * num + 2, s)
  {
    TagIsByte(num, LENGTH_DELIMITED);
    assert [8 * num + 2] + (EncodeVarint(|s|) + s) == [8 * num + 2] + EncodeVarint(|s|) + s;
  }

  lemma BlobBytes(num: nat, s: seq<byte>)
    requires 0 < num < 16
    ensures EncodeField(num, Bytes, Blob(s)) == PartBytes(Text(8 * num + 2, s))
  {
    DelimitedBytes(num, s);
  }

  lemma {:induction false} BlobsBytes(num: nat, list: seq<seq<byte>>)
    requires 0 < num < 16
    ensures EncodeBlobs(num, list) == PartBytes(Pieces(8 * num + 2, list))
    decreases |list|
  {
    if list != [] {
      DelimitedBytes(num, list[0]);
      BlobsBytes(num, list[1..]);
    }
  }

  function Encodings(fields: seq<Kind>, ms: seq<Message>): seq<seq<byte>>
    requires forall m | m in ms :: ValidMessage(fields, m)
  {
    if ms == [] then [] else [Encode(fields, ms[0])] + Encodings(fields, ms[1..])
  }

  lemma {:induction false} MessagesBytes(num: nat, fields: seq<Kind>, ms: seq<Message>)
    requires 0 < num < 16 && forall m | m in ms :: ValidMessage(fields, m)
    ensures EncodeMessages(num, fields, ms) == PartBytes(Pieces(8 * num + 2, Encodings(fields, ms)))
    decreases |ms|
  {
    if ms != [] {
      var first := Encode(fields, ms[0]);
      DelimitedBytes(num, first);
      MessagesBytes(num, fields, ms[1..]);
      assert Encodings(fields, ms)[1..] == Encodings(fields, ms[1..]);
    }
  }

  /** A message is its fields in order of their numbers. */
  lemma MessageBytes(fields: seq<Kind>, m: Message, parts: seq<Part>)
    requires ValidMessage(fields, m) && |parts| == |fields|
    requires forall k | 0 <= k < |fields| :: PartBytes(parts[k]) == EncodeField(k + 1, fields[k], m.values[k])
    ensures Encode(fields, m) == Join(parts)
  {
    MessageBytesFrom(fields, m, parts, 0);
    assert parts[0..] == parts;
  }

  lemma {:induction false} MessageBytesFrom(fields: seq<Kind>, m: Message, parts: seq<Part>, k: nat)
    requires ValidMessage(fields, m) && |parts| == |fields| && k <= |fields|
    requires forall j | 0 <= j < |fields| :: PartBytes(parts[j]) == EncodeField(j + 1, fields[j], m.values[j])
    ensures EncodeFrom(fields, m, k) == Join(parts[k..])
    decreases |fields| - k
  {
    if k < |fields| {
      MessageBytesFrom(fields, m, parts, k + 1);
      assert parts[k..][1..] == parts[k + 1..];
    }
  }

  predicate IsFlat(v: Value) {
    v.Blob? || (v.Scalar? && -0x8000_0000_0000_0000 <= v.n)
  }

  function FlatPart(num: nat, v: Value): Part
    requires 0 < num < 16 && IsFlat(v)
  {
    if v.Blob? then Text(8 * num + 2, v.bytes) else Number(8 * num, Word64(v.n))
  }

  /** A message of scalars and byte strings, part by part. */
  lemma FlatBytes(fields: seq<Kind>, m: Message, parts: seq<Part>)
    requires ValidMessage(fields, m) && |parts| == |fields| < 16
    requires forall k | 0 <= k < |fields| :: IsScalar(fields[k]) || fields[k].Bytes?
    requires forall k | 0 <= k < |fields| :: IsFlat(m.values[k]) && parts[k] == FlatPart(k + 1, m.values[k])
    ensures Encode(fields, m) == Join(parts)
  {
    forall k | 0 <= k < |fields| ensures PartBytes(parts[k]) == EncodeField(k + 1, fields[k], m.values[k]) {
      assert ValidValue(fields[k], m.values[k]);
      if m.values[k].Blob? {
        BlobBytes(k + 1, m.values[k].bytes);
      } else {
        ScalarBytes(k + 1, fields[k], m.values[k].n);
      }
    }
    MessageBytes(fields, m, parts);
  }

  // ----- what the readers make of bytes -----

  /** A scalar keeps the low bits of its varint: the same number modulo 2^32 or 2^64, in the range of its type. */
  lemma ScalarKeeps(kind: Kind, sum: nat)
    requires IsScalar(kind)
    ensures var n := Narrow(kind, sum);
            match kind
            case Uint32 => 0 <= n < 0x1_0000_0000 && (sum - n) % 0x1_0000_0000 == 0
            case Uint64 => 0 <= n < 0x1_0000_0000_0000_0000 && (sum - n) % 0x1_0000_0000_0000_0000 == 0
            case Int32 => -0x8000_0000 <= n < 0x8000_0000 && (sum - n) % 0x1_0000_0000 == 0
            case _ => -0x8000_0000_0000_0000 <= n < 0x8000_0000_0000_0000 && (sum - n) % 0x1_0000_0000_0000_0000 == 0
  {
  }

  /** Where a payload lies whose length is spelled by n bytes from i. */
  lemma WindowMeans(d: seq<byte>, i: nat, n: nat)
    requires Scan(d, i, 0) == Ok(n) && |d| < 0x8000_0000_0000_0000
    ensures var length, start := VarintSum(d, i, n) % 0x1_0000_0000_0000_0000, i + n;
            WindowAt(d, i) == if start + length >= 0x8000_0000_0000_0000 then NoWindow(InvalidLength)
                              else if start + length > |d| then NoWindow(UnexpectedEof)
                              else Window(start, start + length)
  {
  }

  /** A tag of n bytes at i: its wire type is in the low three bits, its number in the rest, read as an int32. */
  lemma HeadMeans(d: seq<byte>, i: nat, n: nat)
    requires i < |d| && Scan(d, i, 0) == Ok(n)
    ensures var number := VarintSum(d, i, n) % 0x1_0000_0000_0000_0000 / 8 % 0x1_0000_0000;
            HeadAt(d, i) == if d[i] % 8 == 4 then BadHead(EndGroupTag)
                            else if number == 0 || number >= 0x8000_0000 then BadHead(IllegalTag)
                            else Head(number, d[i] % 8, i + n)
  {
  }

  /** A scalar field is refused unless its wire type is 0, a byte string or message unless it is 2. */
  lemma WireTypesChecked(fields: seq<Kind>, m: Message, d: seq<byte>, i: nat, k: nat)
    requires ValidMessage(fields, m) && k < |fields| && i < |d| < 0x8000_0000_0000_0000
    requires HeadAt(d, i).Head? && HeadAt(d, i).num == k + 1
    ensures match fields[k]
            case RepeatedMessage(_) => d[i] % 8 != 2 ==> DecodeTurn(fields, m, d, i) == Stop(WrongWireType)
            case RepeatedBytes => DecodeTurn(fields, m, d, i) == Stop(WrongWireType) <==> d[i] % 8 != 2
            case Bytes => DecodeTurn(fields, m, d, i) == Stop(WrongWireType) <==> d[i] % 8 != 2
            case _ => DecodeTurn(fields, m, d, i) == Stop(WrongWireType) <==> d[i] % 8 != 0
  {
    var j := HeadAt(d, i).i;
    assert Scan(d, j, 0) != Err(WrongWireType) by {
      ScanErrors(d, j, 0);
    }
  }

  lemma {:induction false} ScanErrors(d: seq<byte>, i: nat, k: nat)
    ensures Scan(d, i, k).Err? ==> Scan(d, i, k).error in {IntOverflow, UnexpectedEof}
    decreases |d| - i - k
  {
    if k < 10 && i + k < |d| && d[i + k] >= 128 {
      ScanErrors(d, i, k + 1);
    }
  }

  /** A sum of positions, or the error that a Go int has overflowed. */
  function Within(end: nat): Result {
    if end < 0x8000_0000_0000_0000 then Ok(end) else Err(InvalidLength)
  }

  /** One turn of skip on a tag of n bytes at i: where each wire type goes. */
  lemma SkipTurn(d: seq<byte>, i: nat, depth: nat, n: nat)
    requires i < |d| < 0x8000_0000_0000_0000 && Scan(d, i, 0) == Ok(n)
    ensures var t, j := d[i] % 8, i + n; var r, size := TurnEnd(d, i, depth), Scan(d, j, 0);
            && (t == 0 ==> r == if size.Ok? then Ok(j + size.value) else size)
            && (t == 1 ==> r == Within(j + 8))
            && (t == 2 ==> r == if size.Err? then size
                                else Within(j + size.value + VarintSum(d, j, size.value) % 0x1_0000_0000_0000_0000))
            && (t == 3 ==> r == Ok(j))
            && (t == 4 ==> r == if depth == 0 then Err(UnexpectedEndOfGroup) else Ok(j))
            && (t == 5 ==> r == Within(j + 4))
            && (t >= 6 ==> r == Err(IllegalWireType))
  {
  }

  /** And how deep each leaves it: only 3 opens a group, only 4 closes one, and skip ends when none is open. */
  lemma SkipDepth(d: seq<byte>, i: nat, depth: nat, end: nat)
    requires i < |d| < 0x8000_0000_0000_0000 && TurnEnd(d, i, depth) == Ok(end)
    ensures var t := d[i] % 8;
            SkipFrom(d, i, depth) == if t == 3 then SkipFrom(d, end, depth + 1)
                                     else if depth == 0 || (t == 4 && depth == 1) then Ok(end)
                                     else if t == 4 then SkipFrom(d, end, depth - 1)
                                     else SkipFrom(d, end, depth)
  {
  }

  /** Decoding one written field: what the field holds before, what it holds after, and every other field as it was. */
  lemma DecodedField(fields: seq<Kind>, m: Message, k: nat, v: Value)
    requires ValidMessage(fields, m) && WellFormed(fields) && k < |fields| && ValidValue(fields[k], v)
    requires |EncodeField(k + 1, fields[k], v)| < 0x8000_0000_0000_0000
    ensures var r := Decode(fields, m, EncodeField(k + 1, fields[k], v));
            && r.Decoded? && |r.message.values| == |fields|
            && (forall j | 0 <= j < |fields| && j != k :: r.message.values[j] == m.values[j])
            && var was, now := m.values[k], r.message.values[k];
               match v
               case Scalar(n) => now == if n == 0 then was else Scalar(n)
               case Blob(s) => now == if s == [] then was else Blob(s)
               case Blobs(list) => was.Blobs? && now == Blobs(was.blobs + list)
               case Messages(list) => was.Messages? && now == Messages(was.messages + list)
  {
    var d := EncodeField(k + 1, fields[k], v);
    AtStart(d);
    DecodesField(fields, m, d, 0, k, v, |d|);
  }
}
