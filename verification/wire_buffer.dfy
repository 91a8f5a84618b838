/**
 The statement sequences that the generated Marshal and Unmarshal repeat for
 every field: writing a field backwards into a sized buffer, and reading the
 head or the payload of a field at an advancing index.
 */
module WireBuffer {
  import opened Bits
  import opened Varint
  import opened UnknownFields
  import opened Wire

  // ----- writing -----

  /** i -= len(s), copy(dAtA[i:], s). */
  method WriteBytes(a: array<byte>, i: nat, s: seq<byte>) returns (start: nat)
    requires |s| <= i <= a.Length
    modifies a
    ensures start == i - |s|
    ensures a[..] == old(a[..start]) + s + old(a[i..])
  {
    start := i - |s|;
    forall k | 0 <= k < |s| {
      a[start + k] := s[k];
    }
    Splice(a[..], start, i);
  }

  /** i--, dAtA[i] = tag: a tag of one byte, as all field numbers here have. */
  method WriteTag(a: array<byte>, i: nat, num: nat, wireType: nat) returns (start: nat)
    requires num < 16 && wireType < 8 && 0 < i <= a.Length
    modifies a
    ensures start == i - 1 && |Tag(num, wireType)| == 1
    ensures a[..] == old(a[..start]) + Tag(num, wireType) + old(a[i..])
  {
    start := i - 1;
    a[start] := 8 * num + wireType;
    Splice(a[..], start, i);
  }

  lemma JoinTwo(p: seq<byte>, q: seq<byte>, s: seq<byte>, t: seq<byte>, n: nat)
    requires n <= |p|
    ensures (p + s + q)[..n] + t + (p + s + q)[|p|..] == p[..n] + (t + (s + q))
  {
  }

  lemma Regroup(p: seq<byte>, t: seq<byte>, s: seq<byte>, q: seq<byte>)
    ensures p + (t + (s + q)) == p + (t + s) + q
  {
  }

  method WriteNumber(a: array<byte>, i: nat, num: nat, v: nat) returns (start: nat)
    requires 0 < num < 16 && 1 + |EncodeVarint(v)| <= i <= a.Length
    modifies a
    ensures |Tag(num, VARINT)| == 1 && start == i - 1 - |EncodeVarint(v)|
    ensures a[..] == old(a[..start]) + (Tag(num, VARINT) + EncodeVarint(v)) + old(a[i..])
  {
    ghost var before := a[..];
    start := WriteVarint(a, i, v);
    ghost var p := before[..start];
    start := WriteTag(a, start, num, VARINT);
    JoinTwo(p, before[i..], EncodeVarint(v), Tag(num, VARINT), start);
    Regroup(p[..start], Tag(num, VARINT), EncodeVarint(v), before[i..]);
  }

  /** A varint field, left out when zero. */
  method WriteScalar(a: array<byte>, i: nat, num: nat, kind: Kind, n: int) returns (start: nat)
    requires 0 < num < 16 && InRange(kind, n) && i <= a.Length
    requires |EncodeField(num, kind, Scalar(n))| <= i
    modifies a
    ensures start == i - |EncodeField(num, kind, Scalar(n))|
    ensures a[..] == old(a[..start]) + EncodeField(num, kind, Scalar(n)) + old(a[i..])
  {
    start := i;
    TagIsByte(num, VARINT);
    if n != 0 {
      start := WriteNumber(a, i, num, ToUint64(n));
    } else {
      Splice(a[..], i, i);
    }
  }

  /** The length and tag in front of a payload s that is already written at i. */
  method WriteHead(a: array<byte>, i: nat, num: nat, length: nat, ghost s: seq<byte>, ghost after: seq<byte>)
    returns (start: nat)
    requires 0 < num < 16 && length == |s|
    requires 1 + |EncodeVarint(length)| <= i <= a.Length && a[..] == a[..i] + s + after
    modifies a
    ensures start == i - 1 - |EncodeVarint(length)| && |Delimited(num, s)| == i - start + |s|
    ensures a[..] == old(a[..start]) + Delimited(num, s) + after
  {
    ghost var before := a[..];
    TagIsByte(num, LENGTH_DELIMITED);
    start := WriteVarint(a, i, length);
    ghost var p := before[..start];
    start := WriteTag(a, start, num, LENGTH_DELIMITED);
    JoinTwo(p, before[i..], EncodeVarint(length), Tag(num, LENGTH_DELIMITED), start);
    assert before[i..] == s + after;
    assert p[..start] == before[..start];
    JoinHead(before[..start], Tag(num, LENGTH_DELIMITED), EncodeVarint(length), s, after);
  }

  lemma JoinHead(p: seq<byte>, t: seq<byte>, l: seq<byte>, s: seq<byte>, q: seq<byte>)
    ensures p + (t + (l + (s + q))) == p + (t + (l + s)) + q
  {
  }

  /** A length-delimited field, payload first. */
  method WriteDelimited(a: array<byte>, i: nat, num: nat, s: seq<byte>) returns (start: nat)
    requires 0 < num < 16 && i <= a.Length && |Delimited(num, s)| <= i
    modifies a
    ensures start == i - |Delimited(num, s)|
    ensures a[..] == old(a[..start]) + Delimited(num, s) + old(a[i..])
  {
    TagIsByte(num, LENGTH_DELIMITED);
    ghost var before := a[..];
    start := WriteBytes(a, i, s);
    assert a[..start] == before[..start];
    start := WriteHead(a, start, num, |s|, s, before[i..]);
  }

  lemma TagIsByte(num: nat, wireType: nat)
    requires num < 16 && wireType < 8
    ensures Tag(num, wireType) == [8 * num + wireType]
  {
  }

  /** A byte-string field that is not empty. */
  method WriteBlob(a: array<byte>, i: nat, num: nat, s: seq<byte>) returns (start: nat)
    requires 0 < num < 16 && i <= a.Length && |EncodeField(num, Bytes, Blob(s))| <= i
    modifies a
    ensures start == i - |EncodeField(num, Bytes, Blob(s))|
    ensures a[..] == old(a[..start]) + EncodeField(num, Bytes, Blob(s)) + old(a[i..])
  {
    start := i;
    if |s| > 0 {
      start := WriteDelimited(a, i, num, s);
    } else {
      Splice(a[..], i, i);
    }
  }

  // ----- field after field, from the last one back -----

  lemma {:induction false} TailFits(fields: seq<Kind>, m: Message, j: nat, k: nat)
    requires ValidMessage(fields, m) && j <= k <= |fields|
    ensures |EncodeFrom(fields, m, k)| <= |EncodeFrom(fields, m, j)|
    decreases k - j
  {
    if j < k {
      TailFits(fields, m, j + 1, k);
    }
  }

  /** The fields from index k on are written between i and hi, the rest is untouched. */
  ghost predicate Written(s: seq<byte>, before: seq<byte>, fields: seq<Kind>, m: Message, k: nat, i: nat, hi: nat)
    requires ValidMessage(fields, m) && k <= |fields|
  {
    && hi <= |before| && i + |EncodeFrom(fields, m, k)| == hi
    && s == before[..i] + EncodeFrom(fields, m, k) + before[hi..]
  }

  lemma WrittenStep(s: seq<byte>, s': seq<byte>, before: seq<byte>, fields: seq<Kind>, m: Message, k: nat, i: nat, hi: nat, start: nat)
    requires ValidMessage(fields, m) && k < |fields|
    requires Written(s, before, fields, m, k + 1, i, hi)
    requires var x := EncodeField(k + 1, fields[k], m.values[k]);
             start + |x| == i && s' == s[..start] + x + s[i..]
    ensures Written(s', before, fields, m, k, start, hi)
  {
    var x, tail := EncodeField(k + 1, fields[k], m.values[k]), EncodeFrom(fields, m, k + 1);
    assert s[..start] == before[..start];
    assert s[i..] == tail + before[hi..];
    assert EncodeFrom(fields, m, k) == x + tail;
  }

  /** Field number k+1 of m, a scalar. */
  method PutScalar(a: array<byte>, i: nat, k: nat, kind: Kind, n: int,
                   ghost fields: seq<Kind>, ghost m: Message, ghost hi: nat, ghost before: seq<byte>)
    returns (start: nat)
    requires ValidMessage(fields, m) && k < |fields| && k < 15 && |Encode(fields, m)| <= hi
    requires kind == fields[k] && m.values[k] == Scalar(n)
    requires Written(a[..], before, fields, m, k + 1, i, hi)
    modifies a
    ensures Written(a[..], before, fields, m, k, start, hi)
  {
    TailFits(fields, m, 0, k);
    start := WriteScalar(a, i, k + 1, kind, n);
    WrittenStep(old(a[..]), a[..], before, fields, m, k, i, hi, start);
  }

  /** Field number k+1 of m, a byte string. */
  method PutBlob(a: array<byte>, i: nat, k: nat, s: seq<byte>,
                 ghost fields: seq<Kind>, ghost m: Message, ghost hi: nat, ghost before: seq<byte>)
    returns (start: nat)
    requires ValidMessage(fields, m) && k < |fields| && k < 15 && |Encode(fields, m)| <= hi
    requires fields[k] == Bytes && m.values[k] == Blob(s)
    requires Written(a[..], before, fields, m, k + 1, i, hi)
    modifies a
    ensures Written(a[..], before, fields, m, k, start, hi)
  {
    TailFits(fields, m, 0, k);
    start := WriteBlob(a, i, k + 1, s);
    WrittenStep(old(a[..]), a[..], before, fields, m, k, i, hi, start);
  }

  // ----- sizes -----

  /** 1 + sov(x), the size of a varint field that is not zero. */
  method ScalarSize(num: nat, kind: Kind, n: int) returns (size: nat)
    requires 0 < num < 16 && InRange(kind, n)
    ensures size == |EncodeField(num, kind, Scalar(n))|
  {
    size := 0;
    if n != 0 {
      TagIsByte(num, VARINT);
      SovIsExact(ToUint64(n));
      size := 1 + Sov(ToUint64(n));
    }
  }

  /** 1 + l + sov(l), the size of a length-delimited field. */
  method DelimitedSize(num: nat, l: nat, ghost s: seq<byte>) returns (size: nat)
    requires 0 < num < 16 && l == |s|
    ensures size == |Delimited(num, s)|
  {
    TagIsByte(num, LENGTH_DELIMITED);
    SovIsExact(l);
    size := 1 + l + Sov(l);
  }

  method BlobSize(num: nat, s: seq<byte>) returns (size: nat)
    requires 0 < num < 16
    ensures size == |EncodeField(num, Bytes, Blob(s))|
  {
    size := 0;
    if |s| > 0 {
      size := DelimitedSize(num, |s|, s);
    }
  }

  // ----- reading -----

  /** What Unmarshal returns: nil or an error. */
  datatype Status = Done | Fault(error: Error)

  /** The tag of a field, with the checks on it. */
  method ReadHead(d: seq<byte>, i: nat) returns (h: Head)
    requires i < |d|
    ensures h == HeadAt(d, i)
  {
    var wire, next := ReadVarint(d, i, 64);
    if wire.Err? {
      return BadHead(wire.error);
    }
    WireTypeOfSum(d, i, next - i);
    WordOfEight(VarintSum(d, i, next - i));
    var fieldNum := ToInt32(wire.value / 8 % TWO_32);
    var wireType := wire.value % 8;
    if wireType == 4 {
      return BadHead(EndGroupTag);
    }
    if fieldNum <= 0 {
      return BadHead(IllegalTag);
    }
    return Head(fieldNum, wireType, next);
  }

  /** A scalar field's payload: the loop runs in a word of the field's own width. */
  method ReadNumber(kind: Kind, d: seq<byte>, i: nat) returns (r: Reading)
    requires IsScalar(kind) && i <= |d|
    ensures r == ReadScalar(kind, d, i)
  {
    var w := if kind.Uint32? || kind.Int32? then 32 else 64;
    var word, next := ReadVarint(d, i, w);
    if word.Err? {
      return Bad(word.error);
    }
    var n: int := word.value;
    match kind {
      case Int32 => n := ToInt32(word.value);
      case Int64 => n := ToInt64(word.value);
      case _ =>
    }
    return Stored(Scalar(n), next);
  }

  /** The length of a length-delimited field, with the checks on it. */
  method ReadWindow(d: seq<byte>, i: nat) returns (w: Window)
    requires i <= |d| < TWO_63
    ensures w == WindowAt(d, i)
  {
    var word, next := ReadVarint(d, i, 64);
    if word.Err? {
      return NoWindow(word.error);
    }
    var byteLen := ToInt64(word.value);
    if byteLen < 0 {
      return NoWindow(InvalidLength);
    }
    var postIndex := AddInt(next, byteLen);
    if postIndex < 0 {
      return NoWindow(InvalidLength);
    }
    if postIndex > |d| {
      return NoWindow(UnexpectedEof);
    }
    return Window(next, postIndex);
  }

  /** The default case of the switch. */
  method SkipField(d: seq<byte>, i: nat, ghost m: Message) returns (r: Result)
    requires i <= |d| < TWO_63
    ensures match SkipUnknown(m, d, i)
            case Next(_, j) => r == Ok(j)
            case Stop(e) => r == Err(e)
  {
    var skippy := Skip(d[i..], 0);
    if skippy.Err? {
      return skippy;
    }
    var next := AddInt(i, skippy.value);
    if next < 0 {
      return Err(InvalidLength);
    }
    if next > |d| {
      return Err(UnexpectedEof);
    }
    return Ok(next);
  }

  /** A case of the switch for a scalar or byte-string field: wire type check, then payload. */
  method ReadCase(kind: Kind, d: seq<byte>, h: Head, ghost prior: Value) returns (r: Reading)
    requires |d| < TWO_63 && h.Head? && h.i <= |d|
    requires IsScalar(kind) || kind.Bytes?
    requires ValidValue(kind, prior)
    ensures r == if h.wireType != WireTypeOf(kind) then Bad(WrongWireType) else ReadField(kind, prior, d, h.i)
  {
    if kind.Bytes? {
      if h.wireType != 2 {
        return Bad(WrongWireType);
      }
      var w := ReadWindow(d, h.i);
      if w.NoWindow? {
        return Bad(w.error);
      }
      return Stored(Blob(d[w.start..w.end]), w.end);
    }
    if h.wireType != 0 {
      return Bad(WrongWireType);
    }
    r := ReadNumber(kind, d, h.i);
  }
}
