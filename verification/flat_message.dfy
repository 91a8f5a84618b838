/**
 The codec of any message of scalars and byte strings, over the table of its
 fields. The messages of the consensus, heartbeat, data-retrieval and epoch-index
 files are such tables; where the generated files spell out one statement
 sequence per field, this class loops over the table.
 */
module FlatMessages {
  import opened Bits
  import opened Varint
  import opened Wire
  import opened WireBuffer
  import opened WireRoundTrip

  /** consensus.Message. */
  const CONSENSUS_MESSAGE: seq<Kind> := [
    Bytes, Bytes, Bytes, Bytes, Bytes, Bytes, Int64, Int64, Bytes, Bytes, Bytes, Bytes, Bytes, Bytes
  ]

  /** heartbeat.HeartbeatV2; its strings are read and written like byte slices. */
  const HEARTBEAT_V2: seq<Kind> := [Bytes, Bytes, Bytes, Bytes, Uint64, Uint32, Bytes, Uint64]

  /** heartbeat.PeerAuthentication. */
  const PEER_AUTHENTICATION: seq<Kind> := [Bytes, Bytes, Bytes, Bytes, Bytes]

  /** heartbeat.Payload. */
  const HEARTBEAT_PAYLOAD: seq<Kind> := [Int64, Bytes]

  /** dataRetriever.RequestData; its type is an enum of 32 bits. */
  const REQUEST_DATA: seq<Kind> := [Int32, Bytes, Uint32, Uint32]

  /** dblookupext.EpochByHash. */
  const EPOCH_BY_HASH: seq<Kind> := [Uint32]

  predicate Flat(fields: seq<Kind>) {
    |fields| < 16 && forall k | 0 <= k < |fields| :: IsScalar(fields[k]) || fields[k].Bytes?
  }

  lemma TablesAreFlat()
    ensures Flat(CONSENSUS_MESSAGE) && Flat(HEARTBEAT_V2) && Flat(PEER_AUTHENTICATION)
    ensures Flat(HEARTBEAT_PAYLOAD) && Flat(REQUEST_DATA) && Flat(EPOCH_BY_HASH)
  {
  }

  lemma FlatIsWellFormed(fields: seq<Kind>)
    requires Flat(fields)
    ensures WellFormed(fields)
  {
  }

  class FlatMessage {
    const fields: seq<Kind>
    var values: seq<Value>

    ghost predicate Valid()
      reads this
    {
      Flat(fields) && ValidMessage(fields, Message(values))
    }

    ghost function View(): (m: Message)
      reads this
    {
      Message(values)
    }

    constructor (fields: seq<Kind>)
      requires Flat(fields)
      ensures Valid() && this.fields == fields && View() == ZeroMessage(fields)
    {
      this.fields := fields;
      values := ZeroMessage(fields).values;
    }

    method Size() returns (n: nat)
      requires Valid()
      ensures n == |Encode(fields, View())|
    {
      n := 0;
      for k := 0 to |fields|
        invariant n + |EncodeFrom(fields, View(), k)| == |Encode(fields, View())|
      {
        var v, l := values[k], 0;
        assert ValidValue(fields[k], v);
        if v.Blob? {
          l := BlobSize(k + 1, v.bytes);
        } else {
          l := ScalarSize(k + 1, fields[k], v.n);
        }
        n := n + l;
      }
    }

    /** Writes the message so that it ends at hi; n is the number of bytes written. */
    method MarshalToSizedBuffer(a: array<byte>, hi: nat) returns (n: nat)
      requires Valid() && |Encode(fields, View())| <= hi <= a.Length
      modifies a
      ensures n == |Encode(fields, View())|
      ensures a[..] == old(a[..hi - n]) + Encode(fields, View()) + old(a[hi..])
    {
      ghost var before, m := a[..], View();
      Splice(before, hi, hi);
      var i := hi;
      for k := |fields| downto 0
        invariant 0 <= i <= hi && Written(a[..], before, fields, m, k, i, hi)
      {
        var v := values[k];
        assert ValidValue(fields[k], v);
        if v.Blob? {
          i := PutBlob(a, i, k, v.bytes, fields, m, hi, before);
        } else {
          i := PutScalar(a, i, k, fields[k], v.n, fields, m, hi, before);
        }
      }
      n := hi - i;
    }

    method Marshal() returns (r: array<byte>)
      requires Valid()
      ensures fresh(r) && r[..] == Encode(fields, View())
    {
      var size := Size();
      r := new byte[size];
      var n := MarshalToSizedBuffer(r, size);
    }

    /** Reads d into this object; what the fields hold after an error is left open. */
    method Unmarshal(d: seq<byte>) returns (r: Status)
      requires Valid() && |d| < TWO_63
      modifies this
      ensures Valid()
      ensures match Decode(fields, old(View()), d)
              case Decoded(m) => r == Done && View() == m
              case Failed(e) => r == Fault(e)
    {
      var i := 0;
      while i < |d|
        invariant 0 <= i <= |d| && Valid()
        invariant DecodeFrom(fields, View(), d, i) == Decode(fields, old(View()), d)
      {
        ghost var m := View();
        ghost var turn := DecodeTurn(fields, m, d, i);
        var h := ReadHead(d, i);
        if h.BadHead? {
          return Fault(h.error);
        }
        if h.num > |fields| {
          var next := SkipField(d, i, m);
          if next.Err? {
            return Fault(next.error);
          }
          i := next.value;
        } else {
          var field := ReadCase(fields[h.num - 1], d, h, m.values[h.num - 1]);
          if field.Bad? {
            return Fault(field.error);
          }
          values := values[h.num - 1 := field.value];
          i := field.i;
        }
      }
      return Done;
    }
  }

  /** What Marshal writes, Unmarshal reads back into a fresh message of the same table. */
  method MarshalThenUnmarshal(message: FlatMessage) returns (copy: FlatMessage, r: Status)
    requires message.Valid() && |Encode(message.fields, message.View())| < TWO_63
    ensures fresh(copy) && copy.fields == message.fields && r == Done && copy.View() == message.View()
  {
    FlatIsWellFormed(message.fields);
    RoundTrip(message.fields, message.View());
    var bytes := message.Marshal();
    copy := new FlatMessage(message.fields);
    r := copy.Unmarshal(bytes[..]);
  }
}
