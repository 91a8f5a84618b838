/**
 Skipping fields a message does not know. The generated skip function walks the
 input with one index and a depth counter; here it is shown to accept exactly
 the recursive grammar of fields and nested groups.
 */
module UnknownFields {
  import opened Bits
  import opened Varint

  const VARINT := 0
  const FIXED64 := 1
  const LENGTH_DELIMITED := 2
  const START_GROUP := 3
  const END_GROUP := 4
  const FIXED32 := 5

  // ----- the algorithm -----

  /**
   i += n on a 64-bit int followed by the sign check: a sum that overflows is
   negative. Lengths of 2^63 and more are negative already.
   */
  function Advance(i: nat, n: nat): Result {
    if n < TWO_63 && i + n < TWO_63 then Ok(i + n) else Err(InvalidLength)
  }

  /** Where a length-delimited payload ends; possibly past the end of the input. */
  function LengthEnd(d: seq<byte>, i: nat): (r: Result)
    ensures r.Ok? ==> i < r.value < TWO_63
  {
    match Scan(d, i, 0)
    case Err(e) => Err(e)
    case Ok(n) => Advance(i + n, VarintSum(d, i, n) % TWO_64)
  }

  /** Where the payload after a tag ends; possibly past the end of the input. */
  function PayloadEnd(d: seq<byte>, i: nat, wireType: nat): (r: Result)
    requires i < TWO_63 && |d| < TWO_63
    ensures r.Ok? ==> i <= r.value < TWO_63
  {
    if wireType == VARINT then
      match Scan(d, i, 0)
      case Err(e) => Err(e)
      case Ok(n) => Ok(i + n)
    else if wireType == FIXED64 then Advance(i, 8)
    else if wireType == LENGTH_DELIMITED then LengthEnd(d, i)
    else if wireType == START_GROUP || wireType == END_GROUP then Ok(i)
    else if wireType == FIXED32 then Advance(i, 4)
    else Err(IllegalWireType)
  }

  /** The wire type of the tag at i: its low three bits, all in the first byte. */
  function WireType(d: seq<byte>, i: nat): nat
    requires i < |d|
  {
    d[i] % 8
  }

  function Deeper(depth: nat, wireType: nat): nat
    requires wireType == END_GROUP ==> depth > 0
  {
    if wireType == START_GROUP then depth + 1
    else if wireType == END_GROUP then depth - 1
    else depth
  }

  /** One turn of the skip loop: where the tag at i and its payload end. */
  function TurnEnd(d: seq<byte>, i: nat, depth: nat): (r: Result)
    requires i < |d| < TWO_63
    ensures r.Ok? ==> i < r.value < TWO_63
    ensures r.Ok? && WireType(d, i) == END_GROUP ==> depth > 0
  {
    match Scan(d, i, 0)
    case Err(e) => Err(e)
    case Ok(n) =>
      if WireType(d, i) == END_GROUP && depth == 0 then Err(UnexpectedEndOfGroup)
      else PayloadEnd(d, i + n, WireType(d, i))
  }

  /** The position at which skip stops, from i with depth groups open. */
  function SkipFrom(d: seq<byte>, i: nat, depth: nat): (r: Result)
    requires |d| < TWO_63
    ensures r.Ok? ==> i < r.value < TWO_63
    decreases |d| - i
  {
    if i >= |d| then Err(UnexpectedEof)
    else
      match TurnEnd(d, i, depth)
      case Err(e) => Err(e)
      case Ok(end) =>
        var open := Deeper(depth, WireType(d, i));
        if open == 0 then Ok(end) else SkipFrom(d, end, open)
  }

  /** The outcome once everything up to i is read and depth groups are open. */
  function Continue(d: seq<byte>, i: nat, depth: nat): Result
    requires |d| < TWO_63
  {
    if depth == 0 then Ok(i) else SkipFrom(d, i, depth)
  }

  lemma {:induction false} WireTypeOfSum(d: seq<byte>, i: nat, n: nat)
    requires 0 < n && i + n <= |d|
    ensures VarintSum(d, i, n) % 8 == WireType(d, i)
    decreases n
  {
    if n == 1 {
      assert VarintSum(d, i, 1) == VarintSum(d, i, 0) + d[i] % 128;
    } else {
      WireTypeOfSum(d, i, n - 1);
      var b := d[i + n - 1] % 128;
      ShlSevenMore(b, 7 * (n - 2));
      LowThreeBits(VarintSum(d, i, n - 1), Shl(b, 7 * (n - 2)));
    }
  }

  lemma LowThreeBits(a: nat, b: nat)
    ensures (a + 128 * b) % 8 == a % 8
  {
  }

  lemma WordOfEight(sum: nat)
    ensures sum % TWO_64 % 8 == sum % 8
  {
  }

  /** The payload cases of skip's switch. */
  method SkipPayload(d: seq<byte>, start: nat, wireType: nat) returns (r: Result)
    requires start <= |d| < TWO_63
    ensures r == PayloadEnd(d, start, wireType)
  {
    var i: int := start;
    match wireType {
      case 0 =>
        var end := SkipVarint(d, i);
        return end;
      case 1 =>
        i := AddInt(i, 8);
      case 2 =>
        var length, after := ReadVarint(d, i, 64);
        if length.Err? {
          return length;
        }
        var signed := ToInt64(length.value);
        if signed < 0 {
          return Err(InvalidLength);
        }
        i := AddInt(after, signed);
      case 3 =>
      case 4 =>
      case 5 =>
        i := AddInt(i, 4);
      case _ =>
        return Err(IllegalWireType);
    }
    if i < 0 {
      return Err(InvalidLength);
    }
    return Ok(i);
  }

  /** The generated skip function. */
  method Skip(d: seq<byte>, start: nat) returns (r: Result)
    requires |d| < TWO_63
    ensures r == SkipFrom(d, start, 0)
  {
    var i, depth := start, 0;
    while i < |d|
      invariant 0 <= i && 0 <= depth
      invariant SkipFrom(d, start, 0) == SkipFrom(d, i, depth)
    {
      var wire, next := ReadVarint(d, i, 64);
      if wire.Err? {
        return wire;
      }
      WireTypeOfSum(d, i, next - i);
      WordOfEight(VarintSum(d, i, next - i));
      var wireType := wire.value % 8;
      if wireType == END_GROUP && depth == 0 {
        return Err(UnexpectedEndOfGroup);
      }
      var end := SkipPayload(d, next, wireType);
      assert end == TurnEnd(d, i, depth);
      if end.Err? {
        return end;
      }
      i := end.value;
      if wireType == START_GROUP {
        depth := depth + 1;
      } else if wireType == END_GROUP {
        depth := depth - 1;
      }
      if depth == 0 {
        return Ok(i);
      }
    }
    return Err(UnexpectedEof);
  }

  // ----- the grammar -----

  /**
   One field of unknown meaning as it stands in the input: a tag and its
   payload, or a group of fields between a start and an end tag. Tags and
   lengths are kept as bytes because any accepted varint may spell them; the
   end tag of a group need not repeat the group's field number.
   */
  datatype Field =
    | Leaf(tag: seq<byte>, payload: seq<byte>)
    | Group(tag: seq<byte>, fields: seq<Field>, end: seq<byte>)

  predicate IsPayload(s: seq<byte>, wireType: nat) {
    || (wireType == VARINT && IsVarint(s))
    || (wireType == FIXED64 && |s| == 8)
    || (wireType == LENGTH_DELIMITED && IsLengthAndBytes(s))
    || (wireType == FIXED32 && |s| == 4)
  }

  /** A varint length and then that many bytes. */
  predicate IsLengthAndBytes(s: seq<byte>) {
    match Scan(s, 0, 0)
    case Err(_) => false
    case Ok(n) => n + VarintSum(s, 0, n) % TWO_64 == |s|
  }

  predicate Valid(f: Field)
    decreases f
  {
    match f
    case Leaf(tag, payload) => IsVarint(tag) && IsPayload(payload, WireType(tag, 0))
    case Group(tag, fields, end) =>
      && IsVarint(tag) && WireType(tag, 0) == START_GROUP
      && ValidAll(fields)
      && IsVarint(end) && WireType(end, 0) == END_GROUP
  }

  predicate ValidAll(fs: seq<Field>)
    decreases fs
  {
    fs == [] || (Valid(fs[0]) && ValidAll(fs[1..]))
  }

  function Print(f: Field): seq<byte>
    decreases f
  {
    match f
    case Leaf(tag, payload) => tag + payload
    case Group(tag, fields, end) => tag + (PrintAll(fields) + end)
  }

  function PrintAll(fs: seq<Field>): seq<byte>
    decreases fs
  {
    if fs == [] then [] else Print(fs[0]) + PrintAll(fs[1..])
  }

  // ----- every printed field is skipped whole -----

  lemma PayloadAt(d: seq<byte>, i: nat, s: seq<byte>, wireType: nat)
    requires |d| < TWO_63 && At(d, i, s) && IsPayload(s, wireType)
    ensures PayloadEnd(d, i, wireType) == Ok(i + |s|)
  {
    if wireType == VARINT {
      ScanAt(d, i, s);
    } else if wireType == LENGTH_DELIMITED {
      var n := Scan(s, 0, 0).value;
      SamePrefix(s, 0, d, i, |s|, n);
      ScanSame(s, 0, d, i, 0);
      VarintSumSame(s, 0, d, i, n);
    }
  }

  /** A tag at i and whatever its payload takes. */
  lemma TurnAt(d: seq<byte>, i: nat, tag: seq<byte>, end: nat, depth: nat)
    requires |d| < TWO_63 && At(d, i, tag) && IsVarint(tag)
    requires WireType(tag, 0) == END_GROUP ==> depth > 0
    requires PayloadEnd(d, i + |tag|, WireType(tag, 0)) == Ok(end)
    ensures SkipFrom(d, i, depth) == Continue(d, end, Deeper(depth, WireType(tag, 0)))
  {
    ScanAt(d, i, tag);
    SameIndex(tag, 0, d, i, |tag|, 0);
    assert TurnEnd(d, i, depth) == Ok(end);
  }

  lemma {:induction false} SkipsField(d: seq<byte>, i: nat, f: Field, j: nat, depth: nat)
    requires |d| < TWO_63 && At(d, i, Print(f)) && Valid(f) && j == i + |Print(f)|
    ensures SkipFrom(d, i, depth) == Continue(d, j, depth)
    decreases f, 1
  {
    match f
    case Leaf(tag, payload) =>
      AtSplit(d, i, tag, payload);
      PayloadAt(d, i + |tag|, payload, WireType(tag, 0));
      TurnAt(d, i, tag, j, depth);
    case Group(tag, fields, end) =>
      var inner := PrintAll(fields);
      var k := i + |tag|;
      AtSplit(d, i, tag, inner + end);
      AtSplit(d, k, inner, end);
      SkipsGroup(d, i, f, k, k + |inner|, j, depth);
  }

  lemma {:induction false} SkipsGroup(d: seq<byte>, i: nat, f: Field, k: nat, l: nat, j: nat, depth: nat)
    requires |d| < TWO_63 && Valid(f) && f.Group?
    requires At(d, i, f.tag) && At(d, k, PrintAll(f.fields)) && At(d, l, f.end)
    requires k == i + |f.tag| && l == k + |PrintAll(f.fields)| && j == l + |f.end|
    ensures SkipFrom(d, i, depth) == Continue(d, j, depth)
    decreases f, 0
  {
    OpensGroup(d, i, f.tag, k, depth);
    SkipsFields(d, k, f.fields, l, depth + 1);
    ClosesGroup(d, l, f.end, j, depth);
  }

  lemma OpensGroup(d: seq<byte>, i: nat, tag: seq<byte>, j: nat, depth: nat)
    requires |d| < TWO_63 && At(d, i, tag) && IsVarint(tag) && WireType(tag, 0) == START_GROUP
    requires j == i + |tag|
    ensures SkipFrom(d, i, depth) == SkipFrom(d, j, depth + 1)
  {
    TurnAt(d, i, tag, j, depth);
  }

  lemma ClosesGroup(d: seq<byte>, i: nat, tag: seq<byte>, j: nat, depth: nat)
    requires |d| < TWO_63 && At(d, i, tag) && IsVarint(tag) && WireType(tag, 0) == END_GROUP
    requires j == i + |tag|
    ensures SkipFrom(d, i, depth + 1) == Continue(d, j, depth)
  {
    TurnAt(d, i, tag, j, depth + 1);
  }

  lemma {:induction false} SkipsFields(d: seq<byte>, i: nat, fs: seq<Field>, j: nat, depth: nat)
    requires |d| < TWO_63 && At(d, i, PrintAll(fs)) && ValidAll(fs) && depth > 0
    requires j == i + |PrintAll(fs)|
    ensures SkipFrom(d, i, depth) == SkipFrom(d, j, depth)
    decreases fs
  {
    if fs != [] {
      var k := i + |Print(fs[0])|;
      AtSplit(d, i, Print(fs[0]), PrintAll(fs[1..]));
      SkipsField(d, i, fs[0], k, depth);
      SkipsFields(d, k, fs[1..], j, depth);
    }
  }

  // ----- everything skipped is a printed field -----

  /** Whatever the loops read at position i lies there as a varint. */
  lemma ScanFound(d: seq<byte>, i: nat)
    requires Scan(d, i, 0).Ok?
    ensures var s := d[i..i + Scan(d, i, 0).value];
            IsVarint(s) && s[0] == d[i] && VarintSum(s, 0, |s|) == VarintSum(d, i, |s|)
  {
    var n := Scan(d, i, 0).value;
    var s := d[i..i + n];
    assert s == s[0..n];
    SameIntro(d, i, s, 0, n);
    ScanSame(d, i, s, 0, 0);
    VarintSumSame(d, i, s, 0, n);
  }

  lemma PayloadFound(d: seq<byte>, i: nat, wireType: nat, end: nat)
    requires end <= |d| < TWO_63 && i <= |d| && PayloadEnd(d, i, wireType) == Ok(end)
    requires wireType != START_GROUP && wireType != END_GROUP
    ensures IsPayload(d[i..end], wireType)
  {
    if wireType == VARINT {
      ScanFound(d, i);
    } else if wireType == LENGTH_DELIMITED {
      var n := Scan(d, i, 0).value;
      var s := d[i..end];
      assert d[i..i + n] == s[0..n];
      SameIntro(d, i, s, 0, n);
      ScanSame(d, i, s, 0, 0);
      VarintSumSame(d, i, s, 0, n);
    }
  }

  lemma LeafFound(d: seq<byte>, i: nat, depth: nat, next: nat) returns (f: Field)
    requires i < next <= |d| < TWO_63 && TurnEnd(d, i, depth) == Ok(next)
    requires WireType(d, i) != START_GROUP && WireType(d, i) != END_GROUP
    ensures Valid(f) && At(d, i, Print(f)) && i + |Print(f)| == next
  {
    var k := i + Scan(d, i, 0).value;
    ScanFound(d, i);
    PayloadFound(d, k, WireType(d, i), next);
    f := Leaf(d[i..k], d[k..next]);
    AtItself(d, i, k);
    AtItself(d, k, next);
    AtSplit(d, i, d[i..k], d[k..next]);
  }

  lemma AtItself(d: seq<byte>, i: nat, j: nat)
    requires i <= j <= |d|
    ensures At(d, i, d[i..j])
  {
    var s := d[i..j];
    assert s == s[0..|s|];
    SameIntro(s, 0, d, i, |s|);
  }

  lemma CloseFound(d: seq<byte>, i: nat, depth: nat, end: nat) returns (close: seq<byte>, j: nat)
    requires i < |d| < TWO_63 && depth > 0
    requires SkipFrom(d, i, depth) == Ok(end) && WireType(d, i) == END_GROUP
    ensures IsVarint(close) && WireType(close, 0) == END_GROUP
    ensures At(d, i, close) && j == i + |close| && Continue(d, j, depth - 1) == Ok(end)
  {
    j := i + Scan(d, i, 0).value;
    close := d[i..j];
    ScanFound(d, i);
    AtItself(d, i, j);
  }

  lemma OpenFound(d: seq<byte>, i: nat, depth: nat, end: nat) returns (open: seq<byte>, j: nat)
    requires i < |d| < TWO_63
    requires SkipFrom(d, i, depth) == Ok(end) && WireType(d, i) == START_GROUP
    ensures IsVarint(open) && WireType(open, 0) == START_GROUP
    ensures At(d, i, open) && j == i + |open| && j > i && SkipFrom(d, j, depth + 1) == Ok(end)
  {
    j := i + Scan(d, i, 0).value;
    open := d[i..j];
    ScanFound(d, i);
    AtItself(d, i, j);
  }

  /**
   With a group open, a successful skip has read some fields and then the tag
   that closes the group, and goes on from there one level up.
   */
  lemma {:induction false} ReadsGroup(d: seq<byte>, i: nat, depth: nat, end: nat)
    returns (fs: seq<Field>, close: seq<byte>, j: nat)
    requires |d| < TWO_63 && depth > 0 && end <= |d|
    requires SkipFrom(d, i, depth) == Ok(end)
    ensures ValidAll(fs) && IsVarint(close) && WireType(close, 0) == END_GROUP
    ensures At(d, i, PrintAll(fs) + close) && j == i + |PrintAll(fs)| + |close|
    ensures Continue(d, j, depth - 1) == Ok(end)
    decreases |d| - i, 1
  {
    if WireType(d, i) == END_GROUP {
      close, j := CloseFound(d, i, depth, end);
      fs := [];
      assert PrintAll(fs) + close == close;
    } else {
      var f, k := ReadsOne(d, i, depth, end);
      var rest;
      rest, close, j := ReadsGroup(d, k, depth, end);
      fs := [f] + rest;
      AtCons(d, i, f, rest, close);
    }
  }

  lemma AtCons(d: seq<byte>, i: nat, f: Field, fs: seq<Field>, close: seq<byte>)
    requires At(d, i, Print(f)) && At(d, i + |Print(f)|, PrintAll(fs) + close)
    ensures PrintAll([f] + fs) == Print(f) + PrintAll(fs)
    ensures At(d, i, PrintAll([f] + fs) + close)
  {
    assert ([f] + fs)[1..] == fs;
    assert PrintAll([f] + fs) + close == Print(f) + (PrintAll(fs) + close);
    AtSplit(d, i, Print(f), PrintAll(fs) + close);
  }

  /** The first field that a successful skip has read. */
  lemma {:induction false} ReadsOne(d: seq<byte>, i: nat, depth: nat, end: nat)
    returns (f: Field, j: nat)
    requires i < |d| < TWO_63 && end <= |d|
    requires SkipFrom(d, i, depth) == Ok(end) && WireType(d, i) != END_GROUP
    ensures Valid(f) && j > i && At(d, i, Print(f)) && j == i + |Print(f)|
    ensures Continue(d, j, depth) == Ok(end)
    decreases |d| - i, 0
  {
    if WireType(d, i) == START_GROUP {
      var open, k := OpenFound(d, i, depth, end);
      var inner, close;
      inner, close, j := ReadsGroup(d, k, depth + 1, end);
      f := Group(open, inner, close);
      AtSplit(d, i, open, PrintAll(inner) + close);
    } else {
      j := TurnEnd(d, i, depth).value;
      f := LeafFound(d, i, depth, j);
    }
  }

  /** The depth counter accepts exactly the recursive grammar, at its exact length. */
  lemma SkipIffField(d: seq<byte>, i: nat, end: nat)
    requires i <= end <= |d| < TWO_63
    ensures SkipFrom(d, i, 0) == Ok(end) <==> exists f :: Valid(f) && Print(f) == d[i..end]
  {
    if SkipFrom(d, i, 0) == Ok(end) {
      var f, _ := ReadsOne(d, i, 0, end);
      SameSlice(Print(f), 0, d, i, |Print(f)|);
    }
    if f :| Valid(f) && Print(f) == d[i..end] {
      AtItself(d, i, end);
      SkipsField(d, i, f, end, 0);
    }
  }
}
