/**
 The metadata kept for a miniblock and its codec, a flat message of thirteen
 scalar and byte-string fields.
 */
module MiniblockMetadataCodec {
  import opened Bits
  import opened Varint
  import opened Wire
  import opened WireBuffer
  import opened WireRoundTrip

  const METADATA_FIELDS: seq<Kind> := [
    Uint32, Uint32, Uint64, Uint64, Bytes, Bytes, Bytes,
    Uint32, Uint64, Uint64, Bytes, Bytes, Int32
  ]

  class MiniblockMetadata {
    var sourceShardID: uint32
    var destinationShardID: uint32
    var round: uint64
    var headerNonce: uint64
    var headerHash: seq<byte>
    var miniblockHash: seq<byte>
    var deprecatedStatus: seq<byte>
    var epoch: uint32
    var notarizedAtSourceInMetaNonce: uint64
    var notarizedAtDestinationInMetaNonce: uint64
    var notarizedAtSourceInMetaHash: seq<byte>
    var notarizedAtDestinationInMetaHash: seq<byte>
    var miniblockType: int32

    constructor ()
      ensures View() == ZeroMessage(METADATA_FIELDS)
    {
      sourceShardID := 0;
      destinationShardID := 0;
      round := 0;
      headerNonce := 0;
      headerHash := [];
      miniblockHash := [];
      deprecatedStatus := [];
      epoch := 0;
      notarizedAtSourceInMetaNonce := 0;
      notarizedAtDestinationInMetaNonce := 0;
      notarizedAtSourceInMetaHash := [];
      notarizedAtDestinationInMetaHash := [];
      miniblockType := 0;
      new;
      assert View().values == ZeroMessage(METADATA_FIELDS).values;
    }

    /** The message this object stands for. */
    ghost function View(): (m: Message)
      reads this
      ensures ValidMessage(METADATA_FIELDS, m) && Holds(m)
    {
      Message([
        Scalar(sourceShardID),
        Scalar(destinationShardID),
        Scalar(round),
        Scalar(headerNonce),
        Blob(headerHash),
        Blob(miniblockHash),
        Blob(deprecatedStatus),
        Scalar(epoch),
        Scalar(notarizedAtSourceInMetaNonce),
        Scalar(notarizedAtDestinationInMetaNonce),
        Blob(notarizedAtSourceInMetaHash),
        Blob(notarizedAtDestinationInMetaHash),
        Scalar(miniblockType)
      ])
    }

    /** The values of m are those of the fields. */
    ghost predicate Holds(m: Message)
      reads this
    {
      && |m.values| == 13
      && m.values[0] == Scalar(sourceShardID)
      && m.values[1] == Scalar(destinationShardID)
      && m.values[2] == Scalar(round)
      && m.values[3] == Scalar(headerNonce)
      && m.values[4] == Blob(headerHash)
      && m.values[5] == Blob(miniblockHash)
      && m.values[6] == Blob(deprecatedStatus)
      && m.values[7] == Scalar(epoch)
      && m.values[8] == Scalar(notarizedAtSourceInMetaNonce)
      && m.values[9] == Scalar(notarizedAtDestinationInMetaNonce)
      && m.values[10] == Blob(notarizedAtSourceInMetaHash)
      && m.values[11] == Blob(notarizedAtDestinationInMetaHash)
      && m.values[12] == Scalar(miniblockType)
    }

    method Size() returns (n: nat)
      ensures n == |Encode(METADATA_FIELDS, View())|
    {
      n := SizeOfFirst(View());
      n := SizeOfMiddle(View(), n);
      n := SizeOfRest(View(), n);
    }

    method SizeOfFirst(ghost m: Message) returns (n: nat)
      requires ValidMessage(METADATA_FIELDS, m) && Holds(m)
      ensures n + |EncodeFrom(METADATA_FIELDS, m, 4)| == |Encode(METADATA_FIELDS, m)|
    {
      Kinds();
      n := 0;
      var l: nat;
      l := ScalarSize(1, Uint32, sourceShardID);
      n := AddSize(n, l, m, 0);
      l := ScalarSize(2, Uint32, destinationShardID);
      n := AddSize(n, l, m, 1);
      l := ScalarSize(3, Uint64, round);
      n := AddSize(n, l, m, 2);
      l := ScalarSize(4, Uint64, headerNonce);
      n := AddSize(n, l, m, 3);
    }

    method SizeOfMiddle(ghost m: Message, first: nat) returns (n: nat)
      requires ValidMessage(METADATA_FIELDS, m) && Holds(m)
      requires first + |EncodeFrom(METADATA_FIELDS, m, 4)| == |Encode(METADATA_FIELDS, m)|
      ensures n + |EncodeFrom(METADATA_FIELDS, m, 7)| == |Encode(METADATA_FIELDS, m)|
    {
      Kinds();
      n := first;
      var l: nat;
      l := BlobSize(5, headerHash);
      n := AddSize(n, l, m, 4);
      l := BlobSize(6, miniblockHash);
      n := AddSize(n, l, m, 5);
      l := BlobSize(7, deprecatedStatus);
      n := AddSize(n, l, m, 6);
    }

    method SizeOfRest(ghost m: Message, first: nat) returns (n: nat)
      requires ValidMessage(METADATA_FIELDS, m) && Holds(m)
      requires first + |EncodeFrom(METADATA_FIELDS, m, 7)| == |Encode(METADATA_FIELDS, m)|
      ensures n == |Encode(METADATA_FIELDS, m)|
    {
      Kinds();
      n := first;
      var l: nat;
      l := ScalarSize(8, Uint32, epoch);
      n := AddSize(n, l, m, 7);
      l := ScalarSize(9, Uint64, notarizedAtSourceInMetaNonce);
      n := AddSize(n, l, m, 8);
      l := ScalarSize(10, Uint64, notarizedAtDestinationInMetaNonce);
      n := AddSize(n, l, m, 9);
      l := BlobSize(11, notarizedAtSourceInMetaHash);
      n := AddSize(n, l, m, 10);
      l := BlobSize(12, notarizedAtDestinationInMetaHash);
      n := AddSize(n, l, m, 11);
      l := ScalarSize(13, Int32, miniblockType);
      n := AddSize(n, l, m, 12);
      assert EncodeFrom(METADATA_FIELDS, m, 13) == [];
    }

    /** Writes the message so that it ends at hi; n is the number of bytes written. */
    method MarshalToSizedBuffer(a: array<byte>, hi: nat) returns (n: nat)
      requires |Encode(METADATA_FIELDS, View())| <= hi <= a.Length
      modifies a
      ensures n == |Encode(METADATA_FIELDS, View())|
      ensures a[..] == old(a[..hi - n]) + Encode(METADATA_FIELDS, View()) + old(a[hi..])
    {
      ghost var before := a[..];
      Splice(before, hi, hi);
      assert EncodeFrom(METADATA_FIELDS, View(), 13) == [];
      var i := WriteLast(a, hi, View(), hi, before);
      i := WriteMiddle(a, i, View(), hi, before);
      i := WriteFirst(a, i, View(), hi, before);
      n := hi - i;
    }

    method WriteLast(a: array<byte>, hi: nat, ghost m: Message, ghost top: nat, ghost before: seq<byte>)
      returns (i: nat)
      requires ValidMessage(METADATA_FIELDS, m) && Holds(m) && |Encode(METADATA_FIELDS, m)| <= top
      requires Written(a[..], before, METADATA_FIELDS, m, 13, hi, top)
      modifies a
      ensures Written(a[..], before, METADATA_FIELDS, m, 7, i, top)
    {
      Kinds();
      ghost var f := METADATA_FIELDS;
      i := hi;
      i := PutScalar(a, i, 12, Int32, miniblockType, f, m, top, before);
      i := PutBlob(a, i, 11, notarizedAtDestinationInMetaHash, f, m, top, before);
      i := PutBlob(a, i, 10, notarizedAtSourceInMetaHash, f, m, top, before);
      i := PutScalar(a, i, 9, Uint64, notarizedAtDestinationInMetaNonce, f, m, top, before);
      i := PutScalar(a, i, 8, Uint64, notarizedAtSourceInMetaNonce, f, m, top, before);
      i := PutScalar(a, i, 7, Uint32, epoch, f, m, top, before);
    }

    method WriteMiddle(a: array<byte>, hi: nat, ghost m: Message, ghost top: nat, ghost before: seq<byte>)
      returns (i: nat)
      requires ValidMessage(METADATA_FIELDS, m) && Holds(m) && |Encode(METADATA_FIELDS, m)| <= top
      requires Written(a[..], before, METADATA_FIELDS, m, 7, hi, top)
      modifies a
      ensures Written(a[..], before, METADATA_FIELDS, m, 4, i, top)
    {
      Kinds();
      ghost var f := METADATA_FIELDS;
      i := hi;
      i := PutBlob(a, i, 6, deprecatedStatus, f, m, top, before);
      i := PutBlob(a, i, 5, miniblockHash, f, m, top, before);
      i := PutBlob(a, i, 4, headerHash, f, m, top, before);
    }

    method WriteFirst(a: array<byte>, hi: nat, ghost m: Message, ghost top: nat, ghost before: seq<byte>)
      returns (i: nat)
      requires ValidMessage(METADATA_FIELDS, m) && Holds(m) && |Encode(METADATA_FIELDS, m)| <= top
      requires Written(a[..], before, METADATA_FIELDS, m, 4, hi, top)
      modifies a
      ensures Written(a[..], before, METADATA_FIELDS, m, 0, i, top)
    {
      Kinds();
      ghost var f := METADATA_FIELDS;
      i := hi;
      i := PutScalar(a, i, 3, Uint64, headerNonce, f, m, top, before);
      i := PutScalar(a, i, 2, Uint64, round, f, m, top, before);
      i := PutScalar(a, i, 1, Uint32, destinationShardID, f, m, top, before);
      i := PutScalar(a, i, 0, Uint32, sourceShardID, f, m, top, before);
    }

    method Marshal() returns (r: array<byte>)
      ensures fresh(r) && r[..] == Encode(METADATA_FIELDS, View())
    {
      var size := Size();
      r := new byte[size];
      var n := MarshalToSizedBuffer(r, size);
    }

    /** Reads d into this object; what the fields hold after an error is left open. */
    method Unmarshal(d: seq<byte>) returns (r: Status)
      requires |d| < TWO_63
      modifies this
      ensures match Decode(METADATA_FIELDS, old(View()), d)
              case Decoded(m) => r == Done && View() == m
              case Failed(e) => r == Fault(e)
    {
      var i := 0;
      while i < |d|
        invariant 0 <= i <= |d|
        invariant DecodeFrom(METADATA_FIELDS, View(), d, i) == Decode(METADATA_FIELDS, old(View()), d)
      {
        ghost var m := View();
        ghost var turn := DecodeTurn(METADATA_FIELDS, m, d, i);
        var h := ReadHead(d, i);
        if h.BadHead? {
          return Fault(h.error);
        }
        if h.num > 13 {
          var next := SkipField(d, i, m);
          if next.Err? {
            return Fault(next.error);
          }
          i := next.value;
        } else {
          var field := ReadCase(METADATA_FIELDS[h.num - 1], d, h, m.values[h.num - 1]);
          if field.Bad? {
            return Fault(field.error);
          }
          Assign(h.num, field.value);
          i := field.i;
        }
      }
      return Done;
    }

    /** The assignments in the thirteen cases of Unmarshal's switch. */
    method Assign(num: nat, v: Value)
      requires 0 < num <= 13 && ValidValue(METADATA_FIELDS[num - 1], v)
      modifies this
      ensures View() == Message(old(View()).values[num - 1 := v])
    {
      Kinds();
      if v.Blob? && num < 8 {
        AssignBytes(num, v.bytes);
      } else if v.Blob? {
        AssignHashes(num, v.bytes);
      } else if num <= 4 {
        AssignFirst(num, v.n);
      } else {
        AssignRest(num, v.n);
      }
    }

    method AssignBytes(num: nat, bytes: seq<byte>)
      requires 0 < num < 8 && METADATA_FIELDS[num - 1] == Bytes
      modifies this
      ensures View() == Message(old(View()).values[num - 1 := Blob(bytes)])
    {
      ghost var m := View();
      Kinds();
      match num {
        case 5 => headerHash := bytes;
        case 6 => miniblockHash := bytes;
        case 7 => deprecatedStatus := bytes;
      }
      SameValues(View(), Message(m.values[num - 1 := Blob(bytes)]));
    }

    method AssignHashes(num: nat, bytes: seq<byte>)
      requires 8 < num <= 13 && METADATA_FIELDS[num - 1] == Bytes
      modifies this
      ensures View() == Message(old(View()).values[num - 1 := Blob(bytes)])
    {
      ghost var m := View();
      Kinds();
      match num {
        case 11 => notarizedAtSourceInMetaHash := bytes;
        case 12 => notarizedAtDestinationInMetaHash := bytes;
      }
      SameValues(View(), Message(m.values[num - 1 := Blob(bytes)]));
    }

    method AssignFirst(num: nat, x: int)
      requires 0 < num <= 4 && InRange(METADATA_FIELDS[num - 1], x)
      modifies this
      ensures View() == Message(old(View()).values[num - 1 := Scalar(x)])
    {
      ghost var m := View();
      Kinds();
      match num {
        case 1 => sourceShardID := x;
        case 2 => destinationShardID := x;
        case 3 => round := x;
        case 4 => headerNonce := x;
      }
      SameValues(View(), Message(m.values[num - 1 := Scalar(x)]));
    }

    method AssignRest(num: nat, x: int)
      requires 7 < num <= 13 && InRange(METADATA_FIELDS[num - 1], x)
      modifies this
      ensures View() == Message(old(View()).values[num - 1 := Scalar(x)])
    {
      ghost var m := View();
      Kinds();
      match num {
        case 8 => epoch := x;
        case 9 => notarizedAtSourceInMetaNonce := x;
        case 10 => notarizedAtDestinationInMetaNonce := x;
        case 13 => miniblockType := x;
      }
      SameValues(View(), Message(m.values[num - 1 := Scalar(x)]));
    }
  }

  lemma Kinds()
    ensures |METADATA_FIELDS| == 13
    ensures METADATA_FIELDS[0] == Uint32
    ensures METADATA_FIELDS[1] == Uint32
    ensures METADATA_FIELDS[2] == Uint64
    ensures METADATA_FIELDS[3] == Uint64
    ensures METADATA_FIELDS[4] == Bytes
    ensures METADATA_FIELDS[5] == Bytes
    ensures METADATA_FIELDS[6] == Bytes
    ensures METADATA_FIELDS[7] == Uint32
    ensures METADATA_FIELDS[8] == Uint64
    ensures METADATA_FIELDS[9] == Uint64
    ensures METADATA_FIELDS[10] == Bytes
    ensures METADATA_FIELDS[11] == Bytes
    ensures METADATA_FIELDS[12] == Int32
  {
  }

  lemma SameValues(x: Message, y: Message)
    requires |x.values| == |y.values| == 13
    requires x.values[0] == y.values[0]
    requires x.values[1] == y.values[1]
    requires x.values[2] == y.values[2]
    requires x.values[3] == y.values[3]
    requires x.values[4] == y.values[4]
    requires x.values[5] == y.values[5]
    requires x.values[6] == y.values[6]
    requires x.values[7] == y.values[7]
    requires x.values[8] == y.values[8]
    requires x.values[9] == y.values[9]
    requires x.values[10] == y.values[10]
    requires x.values[11] == y.values[11]
    requires x.values[12] == y.values[12]
    ensures x == y
  {
    assert x.values == y.values;
  }

  /** Adds the size of field k+1 to the sizes of those before it. */
  method AddSize(n: nat, l: nat, ghost m: Message, ghost k: nat) returns (total: nat)
    requires ValidMessage(METADATA_FIELDS, m) && k < 13
    requires l == |EncodeField(k + 1, METADATA_FIELDS[k], m.values[k])|
    requires n + |EncodeFrom(METADATA_FIELDS, m, k)| == |Encode(METADATA_FIELDS, m)|
    ensures total + |EncodeFrom(METADATA_FIELDS, m, k + 1)| == |Encode(METADATA_FIELDS, m)|
  {
    total := n + l;
  }

  lemma MetadataRoundTrip(m: Message)
    requires ValidMessage(METADATA_FIELDS, m) && |Encode(METADATA_FIELDS, m)| < TWO_63
    ensures Decode(METADATA_FIELDS, ZeroMessage(METADATA_FIELDS), Encode(METADATA_FIELDS, m)) == Decoded(m)
  {
    RoundTrip(METADATA_FIELDS, m);
  }

  /** Metadata written by Marshal and read by Unmarshal into a fresh object is the same metadata. */
  method MarshalThenUnmarshal(metadata: MiniblockMetadata) returns (copy: MiniblockMetadata, r: Status)
    requires |Encode(METADATA_FIELDS, metadata.View())| < TWO_63
    ensures fresh(copy) && r == Done && copy.View() == metadata.View()
  {
    var bytes := metadata.Marshal();
    copy := new MiniblockMetadata();
    MetadataRoundTrip(metadata.View());
    r := copy.Unmarshal(bytes[..]);
  }
}
