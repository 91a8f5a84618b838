/**
 The record of a transaction's outcomes and its codec: a receipt hash and, per
 epoch, a group of smart contract result hashes. The group is a nested message.
 */
module ResultsHashes {
  import opened Bits
  import opened Varint
  import opened Wire
  import opened WireBuffer
  import opened WireRoundTrip
  import U = UnknownFields

  const GROUP_FIELDS: seq<Kind> := [Uint32, RepeatedBytes]
  const RECORD_FIELDS: seq<Kind> := [Bytes, RepeatedMessage(GROUP_FIELDS)]

  function GroupMessage(epoch: uint32, hashes: seq<seq<byte>>): (m: Message)
    ensures ValidMessage(GROUP_FIELDS, m)
  {
    Message([Scalar(epoch), Blobs(hashes)])
  }

  class ScResultsHashesAndEpoch {
    var epoch: uint32
    var scResultsHashes: seq<seq<byte>>

    constructor (epoch: uint32)
      ensures View() == GroupMessage(epoch, [])
    {
      this.epoch := epoch;
      scResultsHashes := [];
    }

    /** The message this object stands for. */
    ghost function View(): (m: Message)
      reads this
      ensures ValidMessage(GROUP_FIELDS, m)
    {
      GroupMessage(epoch, scResultsHashes)
    }

    lemma EncodingParts()
      ensures Encode(GROUP_FIELDS, View())
           == EncodeField(1, Uint32, Scalar(epoch)) + EncodeBlobs(2, scResultsHashes)
    {
      var m := View();
      assert EncodeFrom(GROUP_FIELDS, m, 2) == [];
      assert EncodeFrom(GROUP_FIELDS, m, 1) == EncodeBlobs(2, scResultsHashes) + [];
    }

    method Size() returns (n: nat)
      ensures n == |Encode(GROUP_FIELDS, View())|
    {
      EncodingParts();
      n := ScalarSize(1, Uint32, epoch);
      for k := 0 to |scResultsHashes|
        invariant n + |EncodeBlobs(2, scResultsHashes[k..])| == |Encode(GROUP_FIELDS, View())|
      {
        var b := scResultsHashes[k];
        assert scResultsHashes[k..][1..] == scResultsHashes[k + 1..];
        var l := DelimitedSize(2, |b|, b);
        n := n + l;
      }
    }

    /** Writes the message so that it ends at hi; n is the number of bytes written. */
    method MarshalToSizedBuffer(a: array<byte>, hi: nat) returns (n: nat)
      requires |Encode(GROUP_FIELDS, View())| <= hi <= a.Length
      modifies a
      ensures n == |Encode(GROUP_FIELDS, View())|
      ensures a[..] == old(a[..hi - n]) + Encode(GROUP_FIELDS, View()) + old(a[hi..])
    {
      EncodingParts();
      ghost var before := a[..];
      var i := hi;
      var k := |scResultsHashes|;
      Splice(before, hi, hi);
      while k > 0
        invariant 0 <= k <= |scResultsHashes| && 0 <= i <= hi
        invariant i + |EncodeBlobs(2, scResultsHashes[k..])| == hi
        invariant a[..] == before[..i] + EncodeBlobs(2, scResultsHashes[k..]) + before[hi..]
      {
        k := k - 1;
        BlobsFit(scResultsHashes, k);
        assert scResultsHashes[k..][1..] == scResultsHashes[k + 1..];
        ghost var tail, j := EncodeBlobs(2, scResultsHashes[k + 1..]), i;
        i := WriteDelimited(a, i, 2, scResultsHashes[k]);
        Prepend(before, j, tail, hi, i, Delimited(2, scResultsHashes[k]));
      }
      assert scResultsHashes[0..] == scResultsHashes;
      ghost var j := i;
      i := WriteScalar(a, i, 1, Uint32, epoch);
      Prepend(before, j, EncodeBlobs(2, scResultsHashes), hi, i, EncodeField(1, Uint32, Scalar(epoch)));
      n := hi - i;
    }

    method Marshal() returns (r: array<byte>)
      ensures fresh(r) && r[..] == Encode(GROUP_FIELDS, View())
    {
      var size := Size();
      r := new byte[size];
      var n := MarshalToSizedBuffer(r, size);
    }

    /** Reads d into this object; what the fields hold after an error is left open. */
    method Unmarshal(d: seq<byte>) returns (r: Status)
      requires |d| < TWO_63
      modifies this
      ensures match Decode(GROUP_FIELDS, old(View()), d)
              case Decoded(m) => r == Done && View() == m
              case Failed(e) => r == Fault(e)
    {
      var i := 0;
      while i < |d|
        invariant 0 <= i <= |d|
        invariant DecodeFrom(GROUP_FIELDS, View(), d, i) == Decode(GROUP_FIELDS, old(View()), d)
      {
        var h := ReadHead(d, i);
        if h.BadHead? {
          return Fault(h.error);
        }
        ghost var m := View();
        ghost var turn := DecodeTurn(GROUP_FIELDS, m, d, i);
        match h.num {
          case 1 =>
            if h.wireType != 0 {
              return Fault(WrongWireType);
            }
            var v := ReadNumber(Uint32, d, h.i);
            assert ReadField(Uint32, m.values[0], d, h.i) == v;
            if v.Bad? {
              return Fault(v.error);
            }
            StoreFirst(m, v.value);
            epoch := v.value.n;
            i := v.i;
          case 2 =>
            if h.wireType != 2 {
              return Fault(WrongWireType);
            }
            var w := ReadWindow(d, h.i);
            ghost var field := ReadField(RepeatedBytes, m.values[1], d, h.i);
            if w.NoWindow? {
              return Fault(w.error);
            }
            StoreSecond(m, Blobs(scResultsHashes + [d[w.start..w.end]]));
            scResultsHashes := scResultsHashes + [d[w.start..w.end]];
            i := w.end;
          case _ =>
            var next := SkipField(d, i, m);
            if next.Err? {
              return Fault(next.error);
            }
            i := next.value;
        }
      }
      return Done;
    }
  }

  lemma StoreFirst(m: Message, v: Value)
    requires |m.values| == 2
    ensures m.values[0 := v] == [v, m.values[1]]
  {
  }

  lemma StoreSecond(m: Message, v: Value)
    requires |m.values| == 2
    ensures m.values[1 := v] == [m.values[0], v]
  {
  }

  lemma {:induction false} BlobsFit(s: seq<seq<byte>>, k: nat)
    requires k < |s|
    ensures |EncodeBlobs(2, s[k + 1..])| + |Delimited(2, s[k])| <= |EncodeBlobs(2, s)|
    decreases k
  {
    if k == 0 {
      assert s[0..] == s;
    } else {
      BlobsFit(s[1..], k - 1);
      assert s[1..][k..] == s[k + 1..];
    }
  }

  /** Writing x just before what a buffer already holds between j and hi. */
  lemma Prepend(before: seq<byte>, j: nat, tail: seq<byte>, hi: nat, i: nat, x: seq<byte>)
    requires i <= j <= hi <= |before| && |tail| == hi - j && |x| == j - i
    ensures var a := before[..j] + tail + before[hi..];
            a[..i] + x + a[j..] == before[..i] + (x + tail) + before[hi..]
  {
    var a := before[..j] + tail + before[hi..];
    assert a[..i] == before[..i];
    assert a[j..] == tail + before[hi..];
  }

  function RecordMessage(receiptsHash: seq<byte>, groups: seq<Message>): (m: Message)
    requires forall g | g in groups :: ValidMessage(GROUP_FIELDS, g)
    ensures ValidMessage(RECORD_FIELDS, m)
  {
    Message([Blob(receiptsHash), Messages(groups)])
  }

  ghost function Views(groups: seq<ScResultsHashesAndEpoch>): (ms: seq<Message>)
    reads groups
    ensures |ms| == |groups| && forall k | 0 <= k < |ms| :: ms[k] == groups[k].View()
    ensures forall m | m in ms :: ValidMessage(GROUP_FIELDS, m)
  {
    seq(|groups|, k requires 0 <= k < |groups| reads groups => groups[k].View())
  }

  /** A nested group: the message in front of what is written, then its length and tag. */
  method WriteGroup(a: array<byte>, i: nat, group: ScResultsHashesAndEpoch) returns (start: nat)
    requires i <= a.Length && |Delimited(2, Encode(GROUP_FIELDS, group.View()))| <= i
    modifies a
    ensures start == i - |Delimited(2, Encode(GROUP_FIELDS, group.View()))|
    ensures a[..] == old(a[..start]) + Delimited(2, Encode(GROUP_FIELDS, group.View())) + old(a[i..])
  {
    ghost var before := a[..];
    TagIsByte(2, U.LENGTH_DELIMITED);
    var size := group.MarshalToSizedBuffer(a, i);
    start := i - size;
    assert a[..start] == before[..start];
    start := WriteHead(a, start, 2, size, Encode(GROUP_FIELDS, group.View()), before[i..]);
  }

  method ReadGroup(d: seq<byte>) returns (group: ScResultsHashesAndEpoch, r: Status)
    requires |d| < TWO_63
    ensures fresh(group)
    ensures match Decode(GROUP_FIELDS, ZeroMessage(GROUP_FIELDS), d)
            case Decoded(m) => r == Done && group.View() == m
            case Failed(e) => r == Fault(e)
  {
    group := new ScResultsHashesAndEpoch(0);
    assert group.View().values == ZeroMessage(GROUP_FIELDS).values;
    r := group.Unmarshal(d);
  }

  class ResultsHashesByTxHash {
    var receiptsHash: seq<byte>
    var scResultsHashesAndEpoch: seq<ScResultsHashesAndEpoch>

    constructor ()
      ensures View() == ZeroMessage(RECORD_FIELDS) && receiptsHash == [] && scResultsHashesAndEpoch == []
    {
      receiptsHash, scResultsHashesAndEpoch := [], [];
    }

    ghost function View(): (m: Message)
      reads this, scResultsHashesAndEpoch
      ensures ValidMessage(RECORD_FIELDS, m)
    {
      RecordMessage(receiptsHash, Views(scResultsHashesAndEpoch))
    }

    lemma EncodingParts()
      ensures Encode(RECORD_FIELDS, View())
           == EncodeField(1, Bytes, Blob(receiptsHash))
            + EncodeMessages(2, GROUP_FIELDS, Views(scResultsHashesAndEpoch))
    {
      var m := View();
      var groups := EncodeMessages(2, GROUP_FIELDS, Views(scResultsHashesAndEpoch));
      assert EncodeFrom(RECORD_FIELDS, m, 2) == [];
      assert EncodeFrom(RECORD_FIELDS, m, 1) == groups + [];
    }

    method Size() returns (n: nat)
      ensures n == |Encode(RECORD_FIELDS, View())|
    {
      EncodingParts();
      n := BlobSize(1, receiptsHash);
      ghost var ms := Views(scResultsHashesAndEpoch);
      for k := 0 to |scResultsHashesAndEpoch|
        invariant n + |EncodeMessages(2, GROUP_FIELDS, ms[k..])| == |Encode(RECORD_FIELDS, View())|
      {
        var l := scResultsHashesAndEpoch[k].Size();
        assert ms[k..][1..] == ms[k + 1..];
        l := DelimitedSize(2, l, Encode(GROUP_FIELDS, ms[k]));
        n := n + l;
      }
    }

    /** Writes the message so that it ends at hi; n is the number of bytes written. */
    method MarshalToSizedBuffer(a: array<byte>, hi: nat) returns (n: nat)
      requires |Encode(RECORD_FIELDS, View())| <= hi <= a.Length
      modifies a
      ensures n == |Encode(RECORD_FIELDS, View())|
      ensures a[..] == old(a[..hi - n]) + Encode(RECORD_FIELDS, View()) + old(a[hi..])
    {
      EncodingParts();
      ghost var before, ms := a[..], Views(scResultsHashesAndEpoch);
      var i := hi;
      var k := |scResultsHashesAndEpoch|;
      Splice(before, hi, hi);
      while k > 0
        invariant 0 <= k <= |scResultsHashesAndEpoch| && 0 <= i <= hi
        invariant i + |EncodeMessages(2, GROUP_FIELDS, ms[k..])| == hi
        invariant a[..] == before[..i] + EncodeMessages(2, GROUP_FIELDS, ms[k..]) + before[hi..]
      {
        k := k - 1;
        MessagesFit(ms, k);
        assert ms[k..][1..] == ms[k + 1..];
        ghost var tail, j := EncodeMessages(2, GROUP_FIELDS, ms[k + 1..]), i;
        i := WriteGroup(a, i, scResultsHashesAndEpoch[k]);
        Prepend(before, j, tail, hi, i, Delimited(2, Encode(GROUP_FIELDS, ms[k])));
      }
      assert ms[0..] == ms;
      ghost var j := i;
      i := WriteBlob(a, i, 1, receiptsHash);
      Prepend(before, j, EncodeMessages(2, GROUP_FIELDS, ms), hi, i, EncodeField(1, Bytes, Blob(receiptsHash)));
      n := hi - i;
    }

    method Marshal() returns (r: array<byte>)
      ensures fresh(r) && r[..] == Encode(RECORD_FIELDS, View())
    {
      var size := Size();
      r := new byte[size];
      var n := MarshalToSizedBuffer(r, size);
    }

    /** The case of the switch for a group. */
    method ReadGroupField(d: seq<byte>, h: Head) returns (r: Status, next: nat)
      requires |d| < TWO_63 && h.Head? && h.i <= |d|
      modifies this
      ensures var m := old(View());
              var field := if h.wireType != 2 then Bad(WrongWireType)
                           else ReadField(RepeatedMessage(GROUP_FIELDS), m.values[1], d, h.i);
              if field.Bad? then r == Fault(field.error)
              else r == Done && next == field.i && View() == Message(m.values[1 := field.value])
    {
      next := h.i;
      if h.wireType != 2 {
        return Fault(WrongWireType), next;
      }
      var w := ReadWindow(d, h.i);
      if w.NoWindow? {
        return Fault(w.error), next;
      }
      ghost var m := View();
      ghost var field := ReadField(RepeatedMessage(GROUP_FIELDS), m.values[1], d, h.i);
      var group, s := ReadGroup(d[w.start..w.end]);
      if s.Fault? {
        return s, next;
      }
      StoreSecond(m, field.value);
      scResultsHashesAndEpoch := scResultsHashesAndEpoch + [group];
      assert Views(scResultsHashesAndEpoch) == m.values[1].messages + [group.View()];
      return Done, w.end;
    }

    /**
     Reads d into this object; groups it already had are kept as they are. What
     the fields hold after an error is left open.
     */
    method Unmarshal(d: seq<byte>) returns (r: Status)
      requires |d| < TWO_63
      modifies this
      ensures match Decode(RECORD_FIELDS, old(View()), d)
              case Decoded(m) => r == Done && View() == m
              case Failed(e) => r == Fault(e)
    {
      var i := 0;
      while i < |d|
        invariant 0 <= i <= |d|
        invariant DecodeFrom(RECORD_FIELDS, View(), d, i) == Decode(RECORD_FIELDS, old(View()), d)
      {
        var h := ReadHead(d, i);
        if h.BadHead? {
          return Fault(h.error);
        }
        ghost var m := View();
        ghost var turn := DecodeTurn(RECORD_FIELDS, m, d, i);
        match h.num {
          case 1 =>
            if h.wireType != 2 {
              return Fault(WrongWireType);
            }
            var w := ReadWindow(d, h.i);
            ghost var field := ReadField(Bytes, m.values[0], d, h.i);
            if w.NoWindow? {
              return Fault(w.error);
            }
            StoreFirst(m, field.value);
            receiptsHash := d[w.start..w.end];
            i := w.end;
          case 2 =>
            var s, next := ReadGroupField(d, h);
            if s.Fault? {
              return s;
            }
            i := next;
          case _ =>
            var next := SkipField(d, i, m);
            if next.Err? {
              return Fault(next.error);
            }
            i := next.value;
        }
      }
      return Done;
    }
  }

  lemma {:induction false} MessagesFit(ms: seq<Message>, k: nat)
    requires k < |ms| && forall m | m in ms :: ValidMessage(GROUP_FIELDS, m)
    ensures |EncodeMessages(2, GROUP_FIELDS, ms[k + 1..])| + |Delimited(2, Encode(GROUP_FIELDS, ms[k]))|
         <= |EncodeMessages(2, GROUP_FIELDS, ms)|
    decreases k
  {
    if k == 0 {
      assert ms[0..] == ms;
    } else {
      MessagesFit(ms[1..], k - 1);
      assert ms[1..][k..] == ms[k + 1..];
    }
  }

  /** A record written by Marshal and read by Unmarshal into a fresh record is the same record. */
  method MarshalThenUnmarshal(record: ResultsHashesByTxHash) returns (copy: ResultsHashesByTxHash, r: Status)
    requires |Encode(RECORD_FIELDS, record.View())| < TWO_63
    ensures fresh(copy) && r == Done && copy.View() == record.View()
  {
    var bytes := record.Marshal();
    copy := new ResultsHashesByTxHash();
    RecordRoundTrip(record.View());
    r := copy.Unmarshal(bytes[..]);
  }

  lemma RecordRoundTrip(m: Message)
    requires ValidMessage(RECORD_FIELDS, m) && |Encode(RECORD_FIELDS, m)| < TWO_63
    ensures Decode(RECORD_FIELDS, ZeroMessage(RECORD_FIELDS), Encode(RECORD_FIELDS, m)) == Decoded(m)
  {
    assert WellFormed(RECORD_FIELDS) by {
      assert WellFormed(GROUP_FIELDS);
    }
    RoundTrip(RECORD_FIELDS, m);
  }
}
