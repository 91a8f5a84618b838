/**
 Decoding what was encoded. Encoded fields are merged into the message they are
 decoded into, so decoding into an empty message gives the original back.
 */
module WireRoundTrip {
  import opened Bits
  import opened Varint
  import opened UnknownFields
  import opened Wire

  const MAX_FIELDS := 0x2000_0000

  /** Field numbers stay below 2^29, the limit of the encoding, at every depth. */
  predicate WellFormed(fields: seq<Kind>)
    decreases fields
  {
    |fields| < MAX_FIELDS && forall k | 0 <= k < |fields| :: WellFormedKind(fields[k])
  }

  predicate WellFormedKind(kind: Kind)
    decreases kind
  {
    kind.RepeatedMessage? ==> WellFormed(kind.fields)
  }

  /** Last one wins for what is present, repeated fields are appended. */
  function MergeValue(kind: Kind, prior: Value, v: Value): (r: Value)
    requires ValidValue(kind, prior) && ValidValue(kind, v)
    ensures ValidValue(kind, r)
  {
    match v
    case Scalar(n) => if n == 0 then prior else v
    case Blob(s) => if s == [] then prior else v
    case Blobs(blobs) => Blobs(prior.blobs + blobs)
    case Messages(ms) => Messages(prior.messages + ms)
  }

  /** y merged into m, for the fields from index k on. */
  function MergeFrom(fields: seq<Kind>, m: Message, y: Message, k: nat): (r: Message)
    requires ValidMessage(fields, m) && ValidMessage(fields, y)
    ensures ValidMessage(fields, r)
  {
    Message(seq(|fields|, j requires 0 <= j < |fields| =>
      if j < k then m.values[j] else MergeValue(fields[j], m.values[j], y.values[j])))
  }

  function Merge(fields: seq<Kind>, m: Message, y: Message): Message
    requires ValidMessage(fields, m) && ValidMessage(fields, y)
  {
    MergeFrom(fields, m, y, 0)
  }

  function Store(fields: seq<Kind>, m: Message, k: nat, v: Value): (r: Message)
    requires ValidMessage(fields, m) && k < |fields| && ValidValue(fields[k], v)
    ensures ValidMessage(fields, r)
  {
    Message(m.values[k := v])
  }

  // ----- one encoded piece at a position -----

  lemma TagAt(d: seq<byte>, i: nat, num: nat, wireType: nat, j: nat)
    requires At(d, i, Tag(num, wireType)) && j == i + |Tag(num, wireType)|
    requires 0 < num < MAX_FIELDS && wireType < 8
    requires wireType != END_GROUP
    ensures i < j <= |d| && HeadAt(d, i) == Head(num, wireType, j)
  {
    var x := 8 * num + wireType;
    ReadWritten(d, i, x);
    assert VarintSum(d, i, j - i) == x;
    TagWord(num, wireType);
    WireTypeOfSum(d, i, j - i);
  }

  lemma TagWord(num: nat, wireType: nat)
    requires num < MAX_FIELDS && wireType < 8
    ensures ToInt32((8 * num + wireType) % TWO_64 / 8 % TWO_32) == num
    ensures (8 * num + wireType) % 8 == wireType
  {
    var x := 8 * num + wireType;
    assert x % TWO_64 == x && x / 8 == num;
  }

  lemma ScalarAt(kind: Kind, n: int, d: seq<byte>, i: nat, j: nat)
    requires InRange(kind, n) && At(d, i, EncodeVarint(ToUint64(n)))
    requires j == i + |EncodeVarint(ToUint64(n))|
    ensures ReadScalar(kind, d, i) == Stored(Scalar(n), j)
  {
    ReadWritten(d, i, ToUint64(n));
    NarrowUndoes(kind, n);
  }

  /** Keeping the low bits undoes the conversion to uint64, sign extension included. */
  lemma NarrowUndoes(kind: Kind, n: int)
    requires InRange(kind, n)
    ensures Narrow(kind, ToUint64(n)) == n
  {
    var x := ToUint64(n);
    assert x % TWO_64 == x;
    if kind.Int32? && n < 0 {
      assert x == (TWO_32 - 1) * TWO_32 + (n + TWO_32);
      DivUnique(x, TWO_32, TWO_32 - 1, n + TWO_32);
    }
  }

  /** A length that was written, with as many bytes behind it. */
  lemma LengthFits(d: seq<byte>, i: nat, length: nat, j: nat)
    requires At(d, i, EncodeVarint(length)) && j == i + |EncodeVarint(length)| && j + length <= |d| < TWO_63
    ensures WindowAt(d, i) == Window(j, j + length)
  {
    ReadWritten(d, i, length);
    assert length % TWO_64 == length;
  }

  lemma LengthAt(d: seq<byte>, i: nat, payload: seq<byte>, end: nat)
    requires |d| < TWO_63 && At(d, i, EncodeVarint(|payload|) + payload)
    requires end == i + |EncodeVarint(|payload|) + payload|
    ensures WindowAt(d, i) == Window(end - |payload|, end)
    ensures end <= |d| && d[end - |payload|..end] == payload
  {
    var s := EncodeVarint(|payload|);
    AtSplit(d, i, s, payload);
    SameSlice(payload, 0, d, i + |s|, |payload|);
    LengthFits(d, i, |payload|, i + |s|);
  }

  /** A known field at i: its tag up to j, its payload up to end. */
  lemma KnownTurn(fields: seq<Kind>, m: Message, d: seq<byte>, i: nat, k: nat, j: nat, v: Value, end: nat)
    requires ValidMessage(fields, m) && |fields| < MAX_FIELDS && k < |fields| && |d| < TWO_63
    requires At(d, i, Tag(k + 1, WireTypeOf(fields[k]))) && j == i + |Tag(k + 1, WireTypeOf(fields[k]))|
    requires ReadField(fields[k], m.values[k], d, j) == Stored(v, end)
    ensures DecodeFrom(fields, m, d, i) == DecodeFrom(fields, Store(fields, m, k, v), d, end)
  {
    TagAt(d, i, k + 1, WireTypeOf(fields[k]), j);
  }

  /** v is the one-element value that a length-delimited payload stands for. */
  ghost predicate Element(kind: Kind, payload: seq<byte>, v: Value) {
    && ValidValue(kind, v)
    && match v
       case Scalar(_) => false
       case Blob(s) => s == payload != []
       case Blobs(blobs) => blobs == [payload]
       case Messages(ms) =>
         && |ms| == 1 && |payload| < TWO_63
         && Decode(kind.fields, ZeroMessage(kind.fields), payload) == Decoded(ms[0])
  }

  lemma ReadsElement(kind: Kind, prior: Value, d: seq<byte>, j: nat, payload: seq<byte>, v: Value, end: nat)
    requires ValidValue(kind, prior) && |d| < TWO_63 && Element(kind, payload, v)
    requires At(d, j, EncodeVarint(|payload|) + payload)
    requires end == j + |EncodeVarint(|payload|) + payload|
    ensures ReadField(kind, prior, d, j) == Stored(MergeValue(kind, prior, v), end)
  {
    LengthAt(d, j, payload, end);
  }

  /** A length-delimited field at i, up to end. */
  lemma DelimitedTurn(fields: seq<Kind>, m: Message, d: seq<byte>, i: nat, k: nat, payload: seq<byte>, v: Value, end: nat)
    requires ValidMessage(fields, m) && |fields| < MAX_FIELDS && k < |fields| && |d| < TWO_63
    requires At(d, i, Delimited(k + 1, payload)) && end == i + |Delimited(k + 1, payload)|
    requires Element(fields[k], payload, v)
    ensures DecodeFrom(fields, m, d, i)
         == DecodeFrom(fields, Store(fields, m, k, MergeValue(fields[k], m.values[k], v)), d, end)
  {
    var tag := Tag(k + 1, LENGTH_DELIMITED);
    var j := i + |tag|;
    AtSplit(d, i, tag, EncodeVarint(|payload|) + payload);
    ReadsElement(fields[k], m.values[k], d, j, payload, v, end);
    KnownTurn(fields, m, d, i, k, j, MergeValue(fields[k], m.values[k], v), end);
  }

  // ----- whole fields and messages -----

  lemma {:induction false} DecodesBlobs(fields: seq<Kind>, m: Message, d: seq<byte>, i: nat, k: nat, blobs: seq<seq<byte>>, end: nat)
    requires ValidMessage(fields, m) && |fields| < MAX_FIELDS && k < |fields| && |d| < TWO_63
    requires fields[k].RepeatedBytes?
    requires At(d, i, EncodeBlobs(k + 1, blobs)) && end == i + |EncodeBlobs(k + 1, blobs)|
    ensures DecodeFrom(fields, m, d, i)
         == DecodeFrom(fields, Store(fields, m, k, MergeValue(fields[k], m.values[k], Blobs(blobs))), d, end)
    decreases blobs
  {
    if blobs == [] {
      MergeNothing(fields, m, k, Blobs([]));
    } else {
      var j := i + |Delimited(k + 1, blobs[0])|;
      var v := MergeValue(fields[k], m.values[k], Blobs([blobs[0]]));
      AtSplit(d, i, Delimited(k + 1, blobs[0]), EncodeBlobs(k + 1, blobs[1..]));
      DelimitedTurn(fields, m, d, i, k, blobs[0], Blobs([blobs[0]]), j);
      DecodesBlobs(fields, Store(fields, m, k, v), d, j, k, blobs[1..], end);
      MergeTwice(fields, m, k, Blobs([blobs[0]]), Blobs(blobs[1..]), Blobs(blobs));
    }
  }

  lemma MergeNothing(fields: seq<Kind>, m: Message, k: nat, v: Value)
    requires ValidMessage(fields, m) && k < |fields| && ValidValue(fields[k], v)
    requires v == Scalar(0) || v == Blob([]) || v == Blobs([]) || v == Messages([])
    ensures Store(fields, m, k, MergeValue(fields[k], m.values[k], v)) == m
  {
    assert MergeValue(fields[k], m.values[k], v) == m.values[k];
    assert m.values[k := m.values[k]] == m.values;
  }

  /** Appending in two parts is appending the whole. */
  predicate Joins(v: Value, w: Value, vw: Value) {
    match v
    case Blobs(s) => w.Blobs? && vw == Blobs(s + w.blobs)
    case Messages(s) => w.Messages? && vw == Messages(s + w.messages)
    case _ => false
  }

  lemma MergeValueTwice(kind: Kind, p: Value, v: Value, w: Value, vw: Value)
    requires ValidValue(kind, p) && ValidValue(kind, v) && ValidValue(kind, w) && ValidValue(kind, vw)
    requires Joins(v, w, vw)
    ensures MergeValue(kind, MergeValue(kind, p, v), w) == MergeValue(kind, p, vw)
  {
    if v.Blobs? {
      assert (p.blobs + v.blobs) + w.blobs == p.blobs + vw.blobs;
    } else {
      assert (p.messages + v.messages) + w.messages == p.messages + vw.messages;
    }
  }

  lemma MergeTwice(fields: seq<Kind>, m: Message, k: nat, v: Value, w: Value, vw: Value)
    requires ValidMessage(fields, m) && k < |fields| && Joins(v, w, vw)
    requires ValidValue(fields[k], v) && ValidValue(fields[k], w) && ValidValue(fields[k], vw)
    ensures Store(fields, Store(fields, m, k, MergeValue(fields[k], m.values[k], v)), k,
                  MergeValue(fields[k], MergeValue(fields[k], m.values[k], v), w))
         == Store(fields, m, k, MergeValue(fields[k], m.values[k], vw))
  {
    MergeValueTwice(fields[k], m.values[k], v, w, vw);
    UpdateTwice(m.values, k, MergeValue(fields[k], m.values[k], v), MergeValue(fields[k], m.values[k], vw));
  }

  lemma UpdateTwice(s: seq<Value>, k: nat, v: Value, w: Value)
    requires k < |s|
    ensures s[k := v][k := w] == s[k := w]
  {
  }

  lemma {:induction false} DecodesMessages(fields: seq<Kind>, m: Message, d: seq<byte>, i: nat, k: nat, ms: seq<Message>, end: nat)
    requires ValidMessage(fields, m) && WellFormed(fields) && k < |fields| && |d| < TWO_63
    requires ValidValue(fields[k], Messages(ms))
    requires At(d, i, EncodeMessages(k + 1, fields[k].fields, ms))
    requires end == i + |EncodeMessages(k + 1, fields[k].fields, ms)|
    ensures DecodeFrom(fields, m, d, i)
         == DecodeFrom(fields, Store(fields, m, k, MergeValue(fields[k], m.values[k], Messages(ms))), d, end)
    decreases ms
  {
    if ms == [] {
      MergeNothing(fields, m, k, Messages([]));
    } else {
      var sub := fields[k].fields;
      var payload := EncodeFrom(sub, ms[0], 0);
      var j := i + |Delimited(k + 1, payload)|;
      var v := MergeValue(fields[k], m.values[k], Messages([ms[0]]));
      AtSplit(d, i, Delimited(k + 1, payload), EncodeMessages(k + 1, sub, ms[1..]));
      RoundTrip(sub, ms[0]);
      DelimitedTurn(fields, m, d, i, k, payload, Messages([ms[0]]), j);
      DecodesMessages(fields, Store(fields, m, k, v), d, j, k, ms[1..], end);
      MergeTwice(fields, m, k, Messages([ms[0]]), Messages(ms[1..]), Messages(ms));
    }
  }

  /** An encoded field is merged into the message. */
  lemma {:induction false} DecodesField(fields: seq<Kind>, m: Message, d: seq<byte>, i: nat, k: nat, v: Value, end: nat)
    requires ValidMessage(fields, m) && WellFormed(fields) && k < |fields| && |d| < TWO_63
    requires ValidValue(fields[k], v)
    requires At(d, i, EncodeField(k + 1, fields[k], v)) && end == i + |EncodeField(k + 1, fields[k], v)|
    ensures DecodeFrom(fields, m, d, i)
         == DecodeFrom(fields, Store(fields, m, k, MergeValue(fields[k], m.values[k], v)), d, end)
    decreases v, 1
  {
    match v
    case Scalar(n) =>
      if n == 0 {
        MergeNothing(fields, m, k, v);
      } else {
        var j := i + |Tag(k + 1, VARINT)|;
        AtSplit(d, i, Tag(k + 1, VARINT), EncodeVarint(ToUint64(n)));
        ScalarAt(fields[k], n, d, j, end);
        KnownTurn(fields, m, d, i, k, j, v, end);
      }
    case Blob(s) =>
      if s == [] {
        MergeNothing(fields, m, k, v);
      } else {
        DelimitedTurn(fields, m, d, i, k, s, v, end);
      }
    case Blobs(blobs) => DecodesBlobs(fields, m, d, i, k, blobs, end);
    case Messages(ms) => DecodesMessages(fields, m, d, i, k, ms, end);
  }

  lemma {:induction false} DecodesFrom(fields: seq<Kind>, m: Message, y: Message, d: seq<byte>, i: nat, k: nat)
    requires ValidMessage(fields, m) && ValidMessage(fields, y) && WellFormed(fields) && k <= |fields|
    requires |d| < TWO_63 && At(d, i, EncodeFrom(fields, y, k)) && |d| == i + |EncodeFrom(fields, y, k)|
    ensures DecodeFrom(fields, m, d, i) == Decoded(MergeFrom(fields, m, y, k))
    decreases y, |fields| - k
  {
    if k == |fields| {
      assert MergeFrom(fields, m, y, k).values == m.values;
    } else {
      var first := EncodeField(k + 1, fields[k], y.values[k]);
      var m' := Store(fields, m, k, MergeValue(fields[k], m.values[k], y.values[k]));
      var j := i + |first|;
      AtSplit(d, i, first, EncodeFrom(fields, y, k + 1));
      DecodesField(fields, m, d, i, k, y.values[k], j);
      DecodesFrom(fields, m', y, d, j, k + 1);
      MergeFromStep(fields, m, y, k);
    }
  }

  lemma MergeFromStep(fields: seq<Kind>, m: Message, y: Message, k: nat)
    requires ValidMessage(fields, m) && ValidMessage(fields, y) && k < |fields|
    ensures MergeFrom(fields, Store(fields, m, k, MergeValue(fields[k], m.values[k], y.values[k])), y, k + 1)
         == MergeFrom(fields, m, y, k)
  {
    var m' := Store(fields, m, k, MergeValue(fields[k], m.values[k], y.values[k]));
    assert MergeFrom(fields, m', y, k + 1).values == MergeFrom(fields, m, y, k).values;
  }

  lemma AtStart(s: seq<byte>)
    ensures At(s, 0, s)
  {
    SameIntro(s, 0, s, 0, |s|);
  }

  /** Decoding an encoded message into m merges it into m. */
  lemma {:induction false} DecodeMerges(fields: seq<Kind>, m: Message, y: Message)
    requires ValidMessage(fields, m) && ValidMessage(fields, y) && WellFormed(fields)
    requires |Encode(fields, y)| < TWO_63
    ensures Decode(fields, m, Encode(fields, y)) == Decoded(Merge(fields, m, y))
    decreases y, |fields| + 1
  {
    AtStart(Encode(fields, y));
    DecodesFrom(fields, m, y, Encode(fields, y), 0, 0);
  }

  /** Unmarshal of Marshal's output into a fresh message gives the message back. */
  lemma {:induction false} RoundTrip(fields: seq<Kind>, y: Message)
    requires ValidMessage(fields, y) && WellFormed(fields) && |Encode(fields, y)| < TWO_63
    ensures Decode(fields, ZeroMessage(fields), Encode(fields, y)) == Decoded(y)
    decreases y, |fields| + 2
  {
    DecodeMerges(fields, ZeroMessage(fields), y);
    forall k | 0 <= k < |fields| ensures MergeValue(fields[k], Zero(fields[k]), y.values[k]) == y.values[k] {
      MergeIntoZero(fields[k], y.values[k]);
    }
    assert Merge(fields, ZeroMessage(fields), y).values == y.values;
  }

  lemma MergeIntoZero(kind: Kind, v: Value)
    requires ValidValue(kind, v)
    ensures MergeValue(kind, Zero(kind), v) == v
  {
  }
}
