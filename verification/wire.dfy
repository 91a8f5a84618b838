/**
 The messages the generated codecs carry. Every generated Marshal and Unmarshal
 follows one template over a table of field kinds; Encode and Decode are that
 template, and the laws below hold for every table.
 */
module Wire {
  import opened Bits
  import opened Varint
  import opened UnknownFields

  /**
   What field number k+1 of a message holds. Strings are Bytes and enums Int32:
   the generated code reads and writes them the same way.
   */
  datatype Kind =
    | Uint32 | Uint64 | Int32 | Int64
    | Bytes
    | RepeatedBytes
    | RepeatedMessage(fields: seq<Kind>)

  datatype Value =
    | Scalar(n: int)
    | Blob(bytes: seq<byte>)
    | Blobs(blobs: seq<seq<byte>>)
    | Messages(messages: seq<Message>)

  /** The value of field k+1 stands at index k. */
  datatype Message = Message(values: seq<Value>)

  predicate IsScalar(kind: Kind) {
    kind.Uint32? || kind.Uint64? || kind.Int32? || kind.Int64?
  }

  predicate InRange(kind: Kind, n: int) {
    match kind
    case Uint32 => 0 <= n < TWO_32
    case Uint64 => 0 <= n < TWO_64
    case Int32 => -TWO_31 <= n < TWO_31
    case Int64 => -TWO_63 <= n < TWO_63
    case _ => false
  }

  predicate ValidValue(kind: Kind, v: Value)
    decreases v
  {
    match v
    case Scalar(n) => InRange(kind, n)
    case Blob(_) => kind.Bytes?
    case Blobs(_) => kind.RepeatedBytes?
    case Messages(ms) => kind.RepeatedMessage? && forall m | m in ms :: ValidMessage(kind.fields, m)
  }

  predicate ValidMessage(fields: seq<Kind>, m: Message)
    decreases m
  {
    |m.values| == |fields| && forall k | 0 <= k < |fields| :: ValidValue(fields[k], m.values[k])
  }

  function Zero(kind: Kind): (v: Value)
    ensures ValidValue(kind, v)
  {
    match kind
    case Bytes => Blob([])
    case RepeatedBytes => Blobs([])
    case RepeatedMessage(_) => Messages([])
    case _ => Scalar(0)
  }

  function ZeroMessage(fields: seq<Kind>): (m: Message)
    ensures ValidMessage(fields, m)
  {
    Message(seq(|fields|, k requires 0 <= k < |fields| => Zero(fields[k])))
  }

  // ----- encoding -----

  function Tag(num: nat, wireType: nat): seq<byte> {
    EncodeVarint(8 * num + wireType)
  }

  /** A length-delimited field: tag, length, payload. */
  function Delimited(num: nat, payload: seq<byte>): seq<byte> {
    Tag(num, LENGTH_DELIMITED) + (EncodeVarint(|payload|) + payload)
  }

  function EncodeBlobs(num: nat, blobs: seq<seq<byte>>): seq<byte> {
    if blobs == [] then [] else Delimited(num, blobs[0]) + EncodeBlobs(num, blobs[1..])
  }

  /** Zero scalars and empty byte strings are left out; repeated elements never are. */
  function EncodeField(num: nat, kind: Kind, v: Value): seq<byte>
    requires ValidValue(kind, v)
    decreases v, 0
  {
    match v
    case Scalar(n) => if n == 0 then [] else Tag(num, VARINT) + EncodeVarint(ToUint64(n))
    case Blob(s) => if s == [] then [] else Delimited(num, s)
    case Blobs(blobs) => EncodeBlobs(num, blobs)
    case Messages(ms) => EncodeMessages(num, kind.fields, ms)
  }

  function EncodeMessages(num: nat, fields: seq<Kind>, ms: seq<Message>): seq<byte>
    requires forall m | m in ms :: ValidMessage(fields, m)
    decreases ms
  {
    if ms == [] then [] else Delimited(num, EncodeFrom(fields, ms[0], 0)) + EncodeMessages(num, fields, ms[1..])
  }

  /** The fields from index k on, in order of their numbers. */
  function EncodeFrom(fields: seq<Kind>, m: Message, k: nat): seq<byte>
    requires ValidMessage(fields, m) && k <= |fields|
    decreases m, |fields| - k
  {
    if k == |fields| then [] else EncodeField(k + 1, fields[k], m.values[k]) + EncodeFrom(fields, m, k + 1)
  }

  function Encode(fields: seq<Kind>, m: Message): seq<byte>
    requires ValidMessage(fields, m)
  {
    EncodeFrom(fields, m, 0)
  }

  // ----- decoding -----

  datatype Outcome = Decoded(message: Message) | Failed(error: Error)

  /** One turn of the Unmarshal loop. */
  datatype Turn = Next(message: Message, i: nat) | Stop(error: Error)

  /** What reading the payload of a known field leaves in that field. */
  datatype Reading = Stored(value: Value, i: nat) | Bad(error: Error)

  function WireTypeOf(kind: Kind): nat {
    if IsScalar(kind) then VARINT else LENGTH_DELIMITED
  }

  /** The value a scalar field keeps of a varint: the low bits, read as its type. */
  function Narrow(kind: Kind, sum: nat): (n: int)
    requires IsScalar(kind)
    ensures InRange(kind, n)
  {
    match kind
    case Uint32 => sum % TWO_32
    case Uint64 => sum % TWO_64
    case Int32 => ToInt32(sum % TWO_32)
    case Int64 => ToInt64(sum % TWO_64)
  }

  /** int32(wire >> 3) for the tag of n bytes at i. */
  function FieldNumber(d: seq<byte>, i: nat, n: nat): int
    requires i + n <= |d|
  {
    ToInt32(VarintSum(d, i, n) % TWO_64 / 8 % TWO_32)
  }

  function ReadScalar(kind: Kind, d: seq<byte>, i: nat): (r: Reading)
    requires IsScalar(kind)
    ensures r.Stored? ==> i < r.i <= |d| && ValidValue(kind, r.value)
  {
    match Scan(d, i, 0)
    case Err(e) => Bad(e)
    case Ok(n) => Stored(Scalar(Narrow(kind, VarintSum(d, i, n))), i + n)
  }

  datatype Window = Window(start: nat, end: nat) | NoWindow(error: Error)

  /** The payload of a length-delimited field whose length starts at i. */
  function WindowAt(d: seq<byte>, i: nat): (w: Window)
    ensures w.Window? ==> i < w.start <= w.end <= |d|
  {
    match LengthEnd(d, i)
    case Err(e) => NoWindow(e)
    case Ok(end) => if end > |d| then NoWindow(UnexpectedEof) else Window(i + Scan(d, i, 0).value, end)
  }

  /** The case of Unmarshal's switch for a field that now holds prior. */
  function ReadField(kind: Kind, prior: Value, d: seq<byte>, i: nat): (r: Reading)
    requires ValidValue(kind, prior) && |d| < TWO_63
    ensures r.Stored? ==> i < r.i <= |d| && ValidValue(kind, r.value)
    decreases |d|, |d| - i, 0
  {
    if IsScalar(kind) then ReadScalar(kind, d, i)
    else
      match WindowAt(d, i)
      case NoWindow(e) => Bad(e)
      case Window(start, end) =>
        match kind
        case Bytes => Stored(Blob(d[start..end]), end)
        case RepeatedBytes => Stored(Blobs(prior.blobs + [d[start..end]]), end)
        case RepeatedMessage(fields) =>
          match DecodeFrom(fields, ZeroMessage(fields), d[start..end], 0)
          case Failed(e) => Bad(e)
          case Decoded(m) => Stored(Messages(prior.messages + [m]), end)
  }

  /** The default case: a field the message does not know is skipped. */
  function SkipUnknown(m: Message, d: seq<byte>, i: nat): (r: Turn)
    requires i <= |d| < TWO_63
    ensures r.Next? ==> i < r.i <= |d| && r.message == m
  {
    match SkipFrom(d[i..], 0, 0)
    case Err(e) => Stop(e)
    case Ok(n) =>
      match Advance(i, n)
      case Err(e) => Stop(e)
      case Ok(end) => if end > |d| then Stop(UnexpectedEof) else Next(m, end)
  }

  datatype Head = Head(num: nat, wireType: nat, i: nat) | BadHead(error: Error)

  /** The tag at i, up to the checks every Unmarshal makes first. */
  function HeadAt(d: seq<byte>, i: nat): (h: Head)
    requires i < |d|
    ensures h.Head? ==> h.num > 0 && i < h.i <= |d| && Scan(d, i, 0) == Ok(h.i - i)
  {
    match Scan(d, i, 0)
    case Err(e) => BadHead(e)
    case Ok(n) =>
      if WireType(d, i) == END_GROUP then BadHead(EndGroupTag)
      else if FieldNumber(d, i, n) <= 0 then BadHead(IllegalTag)
      else Head(FieldNumber(d, i, n), WireType(d, i), i + n)
  }

  function DecodeTurn(fields: seq<Kind>, m: Message, d: seq<byte>, i: nat): (r: Turn)
    requires ValidMessage(fields, m) && i < |d| < TWO_63
    ensures r.Next? ==> i < r.i <= |d| && ValidMessage(fields, r.message)
    decreases |d|, |d| - i, 0
  {
    match HeadAt(d, i)
    case BadHead(e) => Stop(e)
    case Head(num, wireType, j) =>
      if num > |fields| then SkipUnknown(m, d, i)
      else if wireType != WireTypeOf(fields[num - 1]) then Stop(WrongWireType)
      else
        match ReadField(fields[num - 1], m.values[num - 1], d, j)
        case Bad(e) => Stop(e)
        case Stored(v, end) => Next(Message(m.values[num - 1 := v]), end)
  }

  /** Unmarshal from position i into a message that now holds m. */
  function DecodeFrom(fields: seq<Kind>, m: Message, d: seq<byte>, i: nat): (r: Outcome)
    requires ValidMessage(fields, m) && |d| < TWO_63
    ensures r.Decoded? ==> ValidMessage(fields, r.message)
    decreases |d|, |d| - i, 1
  {
    if i >= |d| then Decoded(m)
    else
      match DecodeTurn(fields, m, d, i)
      case Stop(e) => Failed(e)
      case Next(m', j) => DecodeFrom(fields, m', d, j)
  }

  function Decode(fields: seq<Kind>, m: Message, d: seq<byte>): Outcome
    requires ValidMessage(fields, m) && |d| < TWO_63
  {
    DecodeFrom(fields, m, d, 0)
  }
}
