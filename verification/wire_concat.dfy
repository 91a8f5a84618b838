/**
 Decoding is local: what a turn of the loop does depends only on the bytes it
 reads. So decoding a concatenation is decoding one part into what the other
 left, and fields a message does not know leave no trace.
 */
module WireConcat {
  import opened Bits
  import opened Varint
  import U = UnknownFields
  import opened Wire
  import opened WireRoundTrip

  // ----- the same bytes elsewhere -----

  lemma {:induction false} SamePart(d: seq<byte>, i: nat, e: seq<byte>, j: nat, n: nat, a: nat, b: nat)
    requires Same(d, i, e, j, n) && a + b <= n
    ensures Same(d, i + a, e, j + a, b)
    decreases b
  {
    SamePrefix(d, i, e, j, n, a + b);
    if b > 0 {
      SamePart(d, i, e, j, n, a, b - 1);
    }
  }

  lemma VarintSame(d: seq<byte>, i: nat, e: seq<byte>, j: nat, n: nat)
    requires Scan(d, i, 0).Ok? && Scan(d, i, 0).value <= n && Same(d, i, e, j, n)
    ensures var k := Scan(d, i, 0).value;
            && Scan(e, j, 0) == Ok(k)
            && VarintSum(e, j, k) == VarintSum(d, i, k)
            && d[i] == e[j]
  {
    var k := Scan(d, i, 0).value;
    SamePrefix(d, i, e, j, n, k);
    ScanSame(d, i, e, j, 0);
    VarintSumSame(d, i, e, j, k);
    SameIndex(d, i, e, j, k, 0);
  }

  lemma WindowSame(d: seq<byte>, i: nat, e: seq<byte>, j: nat, start: nat, end: nat, stop: nat)
    requires WindowAt(d, i) == Window(start, end) && stop == j + (end - i) && |e| < TWO_63
    requires Same(d, i, e, j, end - i)
    ensures j + (start - i) <= stop <= |e|
    ensures WindowAt(e, j) == Window(j + (start - i), stop) && e[j + (start - i)..stop] == d[start..end]
  {
    VarintSame(d, i, e, j, end - i);
    SamePart(d, i, e, j, end - i, start - i, end - start);
    SameSlice(d, start, e, j + (start - i), end - start);
  }

  lemma ReadFieldSame(kind: Kind, prior: Value, d: seq<byte>, i: nat, e: seq<byte>, j: nat, v: Value, end: nat, stop: nat)
    requires ValidValue(kind, prior) && |d| < TWO_63 && |e| < TWO_63
    requires ReadField(kind, prior, d, i) == Stored(v, end) && stop == j + (end - i)
    requires Same(d, i, e, j, end - i)
    ensures ReadField(kind, prior, e, j) == Stored(v, stop)
  {
    if IsScalar(kind) {
      VarintSame(d, i, e, j, end - i);
    } else {
      WindowSame(d, i, e, j, WindowAt(d, i).start, end, stop);
    }
  }

  lemma SkipUnknownSame(m: Message, d: seq<byte>, i: nat, e: seq<byte>, j: nat, end: nat, stop: nat)
    requires i <= |d| < TWO_63 && |e| < TWO_63
    requires SkipUnknown(m, d, i) == Next(m, end) && stop == j + (end - i)
    requires Same(d, i, e, j, end - i)
    ensures SkipUnknown(m, e, j) == Next(m, stop)
  {
    var n := end - i;
    SameSlice(d, i, e, j, n);
    assert d[i..][0..n] == d[i..end] && e[j..][0..n] == e[j..stop];
    U.SkipIffField(d[i..], 0, n);
    U.SkipIffField(e[j..], 0, n);
  }

  lemma HeadSame(d: seq<byte>, i: nat, e: seq<byte>, j: nat, n: nat)
    requires i < |d| && HeadAt(d, i).Head? && HeadAt(d, i).i - i <= n && Same(d, i, e, j, n)
    ensures j < |e| && HeadAt(e, j) == Head(HeadAt(d, i).num, HeadAt(d, i).wireType, HeadAt(d, i).i - i + j)
  {
    VarintSame(d, i, e, j, n);
  }

  lemma TurnSame(fields: seq<Kind>, m: Message, d: seq<byte>, i: nat, e: seq<byte>, j: nat, m': Message, end: nat, stop: nat)
    requires ValidMessage(fields, m) && i < |d| < TWO_63 && |e| < TWO_63
    requires DecodeTurn(fields, m, d, i) == Next(m', end) && stop == j + (end - i)
    requires Same(d, i, e, j, end - i)
    ensures j < |e| && DecodeTurn(fields, m, e, j) == Next(m', stop)
  {
    var num, k := HeadAt(d, i).num, HeadAt(d, i).i;
    if num > |fields| {
      SkipFindsTag(m, d, i, end);
      HeadSame(d, i, e, j, end - i);
      SkipUnknownSame(m, d, i, e, j, end, stop);
    } else {
      var v := ReadField(fields[num - 1], m.values[num - 1], d, k).value;
      KnownSame(fields[num - 1], m.values[num - 1], d, i, e, j, v, end, stop);
    }
  }

  lemma KnownSame(kind: Kind, prior: Value, d: seq<byte>, i: nat, e: seq<byte>, j: nat, v: Value, end: nat, stop: nat)
    requires ValidValue(kind, prior) && i < |d| < TWO_63 && |e| < TWO_63 && HeadAt(d, i).Head?
    requires ReadField(kind, prior, d, HeadAt(d, i).i) == Stored(v, end) && stop == j + (end - i)
    requires Same(d, i, e, j, end - i)
    ensures var h := HeadAt(d, i); var k := h.i - i + j;
            && j < |e| && HeadAt(e, j) == Head(h.num, h.wireType, k)
            && ReadField(kind, prior, e, k) == Stored(v, stop)
  {
    var k := HeadAt(d, i).i;
    HeadSame(d, i, e, j, end - i);
    SamePart(d, i, e, j, end - i, k - i, end - k);
    ReadFieldSame(kind, prior, d, k, e, k - i + j, v, end, stop);
  }

  /** A skipped field is at least as long as its tag. */
  lemma SkipFindsTag(m: Message, d: seq<byte>, i: nat, end: nat)
    requires i < |d| < TWO_63 && SkipUnknown(m, d, i) == Next(m, end)
    ensures Scan(d, i, 0).Ok? && i + Scan(d, i, 0).value <= end
  {
    var s := d[i..];
    var k := Scan(s, 0, 0).value;
    assert U.TurnEnd(s, 0, 0).Ok?;
    assert d[i..i + k] == s[0..k];
    SameIntro(s, 0, d, i, k);
    ScanSame(s, 0, d, i, 0);
  }

  // ----- concatenation -----

  /** Equal results, or errors on both sides. */
  predicate Agree(r: Outcome, s: Outcome) {
    r.Decoded? || s.Decoded? ==> r == s
  }

  lemma PrefixSame(a: seq<byte>, b: seq<byte>, i: nat, n: nat)
    requires i + n <= |a|
    ensures Same(a, i, a + b, i, n)
  {
    assert (a + b)[i..i + n] == a[i..i + n];
    SameIntro(a, i, a + b, i, n);
  }

  lemma SuffixSame(a: seq<byte>, b: seq<byte>, i: nat, n: nat)
    requires i + n <= |b|
    ensures Same(b, i, a + b, |a| + i, n) && Same(a + b, |a| + i, b, i, n)
  {
    assert (a + b)[|a| + i..|a| + i + n] == b[i..i + n];
    SameIntro(b, i, a + b, |a| + i, n);
    SameIntro(a + b, |a| + i, b, i, n);
  }

  lemma {:induction false} DecodePrefix(fields: seq<Kind>, m: Message, a: seq<byte>, b: seq<byte>, i: nat, m1: Message)
    requires ValidMessage(fields, m) && |a + b| < TWO_63 && i <= |a|
    requires DecodeFrom(fields, m, a, i) == Decoded(m1)
    ensures DecodeFrom(fields, m, a + b, i) == DecodeFrom(fields, m1, a + b, |a|)
    decreases |a| - i
  {
    if i < |a| {
      var turn := DecodeTurn(fields, m, a, i);
      PrefixSame(a, b, i, turn.i - i);
      TurnSame(fields, m, a, i, a + b, i, turn.message, turn.i, turn.i);
      DecodePrefix(fields, turn.message, a, b, turn.i, m1);
    }
  }

  lemma {:induction false} DecodeSuffix(fields: seq<Kind>, m: Message, a: seq<byte>, b: seq<byte>, i: nat, j: nat)
    requires ValidMessage(fields, m) && |a + b| < TWO_63 && i <= |b| && j == |a| + i
    ensures Agree(DecodeFrom(fields, m, a + b, j), DecodeFrom(fields, m, b, i))
    decreases |b| - i
  {
    if i < |b| {
      var turn := DecodeTurn(fields, m, b, i);
      var turn' := DecodeTurn(fields, m, a + b, j);
      if turn.Next? {
        var j' := |a| + turn.i;
        SuffixSame(a, b, i, turn.i - i);
        TurnSame(fields, m, b, i, a + b, j, turn.message, turn.i, j');
        DecodeSuffix(fields, turn.message, a, b, turn.i, j');
      } else if turn'.Next? {
        SuffixSame(a, b, i, turn'.i - j);
        TurnSame(fields, m, a + b, j, b, i, turn'.message, turn'.i, turn'.i - |a|);
      }
    }
  }

  /** Unmarshal of a + b goes on with b in the message that a decodes to. */
  lemma DecodeConcat(fields: seq<Kind>, m: Message, a: seq<byte>, b: seq<byte>, m1: Message)
    requires ValidMessage(fields, m) && |a + b| < TWO_63
    requires Decode(fields, m, a) == Decoded(m1)
    ensures ValidMessage(fields, m1)
    ensures Agree(Decode(fields, m, a + b), Decode(fields, m1, b))
  {
    DecodePrefix(fields, m, a, b, 0, m1);
    DecodeSuffix(fields, m1, a, b, 0, |a|);
  }

  /** Concatenated encodings decode to the merged messages. */
  lemma ConcatMerges(fields: seq<Kind>, x: Message, y: Message)
    requires ValidMessage(fields, x) && ValidMessage(fields, y) && WellFormed(fields)
    requires |Encode(fields, x) + Encode(fields, y)| < TWO_63
    ensures Decode(fields, ZeroMessage(fields), Encode(fields, x) + Encode(fields, y)) == Decoded(Merge(fields, x, y))
  {
    RoundTrip(fields, x);
    DecodeMerges(fields, x, y);
    DecodeConcat(fields, ZeroMessage(fields), Encode(fields, x), Encode(fields, y), x);
  }

  // ----- unknown fields -----

  /** The number in a field's first tag. */
  function NumberOf(f: U.Field): int
    requires U.Valid(f)
  {
    FieldNumber(f.tag, 0, |f.tag|)
  }

  /** A well-formed field whose number is positive and not in the table is stepped over. */
  lemma SkipsUnknown(fields: seq<Kind>, m: Message, f: U.Field, b: seq<byte>)
    requires ValidMessage(fields, m) && U.Valid(f) && NumberOf(f) > |fields|
    requires |U.Print(f) + b| < TWO_63
    ensures Agree(Decode(fields, m, U.Print(f) + b), Decode(fields, m, b))
  {
    var p := U.Print(f);
    var d := p + b;
    assert d[0..] == d;
    AtStart(p);
    var rest := if f.Leaf? then f.payload else U.PrintAll(f.fields) + f.end;
    assert p == f.tag + rest;
    AtSplit(p, 0, f.tag, rest);
    ScanAt(p, 0, f.tag);
    PrefixSame(p, b, 0, |p|);
    SameIndex(f.tag, 0, p, 0, |f.tag|, 0);
    HeadSame(p, 0, d, 0, |p|);
    PrintAt(p, b);
    U.SkipsField(d, 0, f, |p|, 0);
    assert DecodeTurn(fields, m, d, 0) == Next(m, |p|);
    DecodeSuffix(fields, m, p, b, 0, |p|);
  }

  lemma PrintAt(p: seq<byte>, b: seq<byte>)
    ensures At(p + b, 0, p)
  {
    PrefixSame(p, b, 0, |p|);
  }

  /**
   Inserting unknown fields between the encoded fields of an input does not
   change what Unmarshal makes of it.
   */
  lemma UnknownIsTransparent(fields: seq<Kind>, m: Message, a: seq<byte>, f: U.Field, b: seq<byte>)
    requires ValidMessage(fields, m) && U.Valid(f) && NumberOf(f) > |fields|
    requires |a + (U.Print(f) + b)| < TWO_63
    requires Decode(fields, m, a).Decoded?
    ensures Agree(Decode(fields, m, a + (U.Print(f) + b)), Decode(fields, m, a + b))
  {
    var m1 := Decode(fields, m, a).message;
    DecodeConcat(fields, m, a, U.Print(f) + b, m1);
    SkipsUnknown(fields, m1, f, b);
    DecodeConcat(fields, m, a, b, m1);
  }

  // ----- consequences -----

  /** Marshal never gives two messages the same bytes. */
  lemma EncodeInjective(fields: seq<Kind>, x: Message, y: Message)
    requires ValidMessage(fields, x) && ValidMessage(fields, y) && WellFormed(fields)
    requires Encode(fields, x) == Encode(fields, y) && |Encode(fields, x)| < TWO_63
    ensures x == y
  {
    RoundTrip(fields, x);
    RoundTrip(fields, y);
  }

  /** Whatever bytes a message was read from, writing and reading it again keeps it. */
  lemma ReencodeStable(fields: seq<Kind>, d: seq<byte>, x: Message)
    requires WellFormed(fields) && |d| < TWO_63
    requires Decode(fields, ZeroMessage(fields), d) == Decoded(x)
    ensures ValidMessage(fields, x)
    ensures |Encode(fields, x)| < TWO_63 ==>
              Decode(fields, ZeroMessage(fields), Encode(fields, x)) == Decoded(x)
  {
    if |Encode(fields, x)| < TWO_63 {
      RoundTrip(fields, x);
    }
  }
}
