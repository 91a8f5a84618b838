/**
 What the results index holds of a transaction after any run of calls: the
 groups of all calls that added one, in order, whatever bytes they went through.
 */
module ResultsHistory {
  import opened Bits
  import opened Hashes
  import opened Wire
  import opened ResultsHashes
  import opened ResultsIndex
  import U = UnknownFields
  import opened Varint
  import opened WireBuffer

  type Bytes = map<Hash, seq<byte>>

  ghost predicate AllSized(storer: Bytes) {
    forall tx :: Sized(storer, tx)
  }

  ghost predicate AllSaved(c: Call, before: Bytes, after: Bytes)
    requires AllSized(before)
  {
    forall tx :: Saved(c, before, after, tx)
  }

  /** storers[k] is the storer before call k; it starts empty. */
  ghost predicate IsRun(calls: seq<Call>, storers: seq<Bytes>) {
    && |storers| == |calls| + 1 && storers[0] == map[]
    && (forall k | 0 <= k < |storers| :: AllSized(storers[k]))
    && forall k | 0 <= k < |calls| :: AllSaved(calls[k], storers[k], storers[k + 1])
  }

  /** Reading and writing the transaction's record never fails. */
  predicate Reliable(calls: seq<Call>, tx: Hash) {
    forall c | c in calls :: tx !in c.unread && tx !in c.unwritten
  }

  /** The calls among the first n that add a group for the transaction. */
  function Grouping(calls: seq<Call>, n: nat, tx: Hash): seq<Call>
    requires n <= |calls|
  {
    if n == 0 then []
    else Grouping(calls, n - 1, tx) + if Groups(calls[n - 1], tx) then [calls[n - 1]] else []
  }

  /** The number of the last call among the first n that touches the transaction, counted from 1; 0 if none does. */
  function LastTouch(calls: seq<Call>, n: nat, tx: Hash): (k: nat)
    requires n <= |calls|
    ensures k <= n && (k > 0 ==> Touches(calls[k - 1], tx))
    ensures forall j | k <= j < n :: !Touches(calls[j], tx)
  {
    if n == 0 then 0 else if Touches(calls[n - 1], tx) then n else LastTouch(calls, n - 1, tx)
  }

  /** One group per grouping call, in order, each with that call's epoch and exactly its result hashes. */
  ghost predicate InOrder(calls: seq<Call>, tx: Hash, groups: seq<Message>) {
    |groups| == |calls| && forall k | 0 <= k < |calls| :: IsGroup(calls[k], tx, groups[k])
  }

  ghost predicate IsReceipt(c: Call, tx: Hash, receipt: Hash) {
    if ReceiptsOf(c.receipts, tx) == {} then receipt == [] else receipt in ReceiptsOf(c.receipts, tx)
  }

  /** The record a transaction should have after n calls. */
  ghost predicate IsRecord(calls: seq<Call>, n: nat, tx: Hash, receipt: Hash, groups: seq<Message>)
    requires n <= |calls|
  {
    && LastTouch(calls, n, tx) > 0
    && IsReceipt(calls[LastTouch(calls, n, tx) - 1], tx, receipt)
    && InOrder(Grouping(calls, n, tx), tx, groups)
  }

  ghost predicate ValidGroups(groups: seq<Message>) {
    forall g | g in groups :: ValidMessage(GROUP_FIELDS, g)
  }

  /** What is stored decodes to the record a transaction should have. */
  ghost predicate Kept(calls: seq<Call>, n: nat, tx: Hash, storer: Bytes)
    requires n <= |calls| && Sized(storer, tx)
  {
    if LastTouch(calls, n, tx) == 0 then tx !in storer
    else
      tx in storer && exists receipt, groups :: IsRecord(calls, n, tx, receipt, groups) && Decodes(storer[tx], receipt, groups)
  }

  ghost predicate Decodes(bytes: seq<byte>, receipt: Hash, groups: seq<Message>)
    requires |bytes| < TWO_63
  {
    ValidGroups(groups) && Decode(RECORD_FIELDS, ZeroMessage(RECORD_FIELDS), bytes) == Decoded(RecordMessage(receipt, groups))
  }

  lemma NoTouchNoGroup(calls: seq<Call>, n: nat, tx: Hash)
    requires n <= |calls| && LastTouch(calls, n, tx) == 0
    ensures Grouping(calls, n, tx) == []
  {
    if n > 0 {
      NoTouchNoGroup(calls, n - 1, tx);
    }
  }

  /** One call keeps the record what it should be. */
  lemma OneCall(calls: seq<Call>, n: nat, tx: Hash, before: Bytes, after: Bytes)
    requires n < |calls| && Sized(before, tx) && Sized(after, tx) && Reliable(calls, tx)
    requires Kept(calls, n, tx, before) && Saved(calls[n], before, after, tx)
    ensures Kept(calls, n + 1, tx, after)
  {
    assert calls[n] in calls;
    if Touches(calls[n], tx) {
      var m :| IsSaved(calls[n], before, tx, m, after[tx]);
      if LastTouch(calls, n, tx) == 0 {
        NoTouchNoGroup(calls, n, tx);
        OneRecord(calls, n, tx, m, [], after[tx]);
      } else {
        var receipt, groups :| IsRecord(calls, n, tx, receipt, groups) && Decodes(before[tx], receipt, groups);
        OneRecord(calls, n, tx, m, groups, after[tx]);
      }
    } else {
      assert Grouping(calls, n + 1, tx) == Grouping(calls, n, tx);
      if LastTouch(calls, n, tx) > 0 {
        var receipt, groups :| IsRecord(calls, n, tx, receipt, groups) && Decodes(before[tx], receipt, groups);
        assert IsRecord(calls, n + 1, tx, receipt, groups);
      }
    }
  }

  /** What a call made, behind the groups that were stored, is the record after it. */
  lemma OneRecord(calls: seq<Call>, n: nat, tx: Hash, m: Message, groups: seq<Message>, bytes: seq<byte>)
    requires n < |calls| && Touches(calls[n], tx) && MadeFor(calls[n], tx, m) && ValidMessage(RECORD_FIELDS, m)
    requires ValidGroups(groups) && InOrder(Grouping(calls, n, tx), tx, groups)
    requires bytes == Encode(RECORD_FIELDS, WithGroups(groups, m)) && |bytes| < TWO_63
    ensures exists receipt, all :: IsRecord(calls, n + 1, tx, receipt, all) && Decodes(bytes, receipt, all)
  {
    var all := groups + GroupsIn(m);
    MadeParts(calls[n], tx, m);
    assert IsRecord(calls, n + 1, tx, ReceiptIn(m), all);
    EncodedDecodes(bytes, ReceiptIn(m), all);
  }

  lemma EncodedDecodes(bytes: seq<byte>, receipt: Hash, groups: seq<Message>)
    requires ValidGroups(groups) && bytes == Encode(RECORD_FIELDS, RecordMessage(receipt, groups)) && |bytes| < TWO_63
    ensures Decodes(bytes, receipt, groups)
  {
    RecordRoundTrip(RecordMessage(receipt, groups));
  }

  lemma MadeParts(c: Call, tx: Hash, m: Message)
    requires Touches(c, tx) && MadeFor(c, tx, m) && ValidMessage(RECORD_FIELDS, m)
    ensures m == RecordMessage(ReceiptIn(m), GroupsIn(m)) && IsReceipt(c, tx, ReceiptIn(m))
    ensures if Groups(c, tx) then |GroupsIn(m)| == 1 && IsGroup(c, tx, GroupsIn(m)[0]) else GroupsIn(m) == []
  {
  }

  lemma {:induction false} KeptUpTo(calls: seq<Call>, storers: seq<Bytes>, tx: Hash, n: nat)
    requires IsRun(calls, storers) && Reliable(calls, tx) && n <= |calls|
    ensures Sized(storers[n], tx) && Kept(calls, n, tx, storers[n])
  {
    if n > 0 {
      KeptUpTo(calls, storers, tx, n - 1);
      OneCall(calls, n - 1, tx, storers[n - 1], storers[n]);
    }
  }

  /**
   After any run, the stored bytes of a transaction decode to one group per call
   that had results and no receipt for it, in call order, and to the receipt of
   the last call that touched it: an earlier receipt does not survive.
   */
  lemma ResultsAppendOnly(calls: seq<Call>, storers: seq<Bytes>, tx: Hash)
    requires IsRun(calls, storers) && Reliable(calls, tx)
    ensures Sized(storers[|calls|], tx) && Kept(calls, |calls|, tx, storers[|calls|])
  {
    KeptUpTo(calls, storers, tx, |calls|);
  }

  // ----- what a failing read costs -----

  /** What a call itself adds for a transaction. */
  ghost predicate IsOwn(c: Call, tx: Hash, own: seq<Message>) {
    if Groups(c, tx) then |own| == 1 && IsGroup(c, tx, own[0]) else own == []
  }

  ghost predicate DecodesTo(bytes: seq<byte>, groups: seq<Message>)
    requires |bytes| < TWO_63
  {
    exists receipt :: Decodes(bytes, receipt, groups)
  }

  /**
   The groups stored before a call are stored after it, in front of its own,
   exactly when the call can read them or there are none.
   */
  lemma GroupsKeptIff(c: Call, tx: Hash, before: Bytes, after: Bytes, groups: seq<Message>) returns (own: seq<Message>)
    requires Sized(before, tx) && Sized(after, tx) && Saved(c, before, after, tx)
    requires Touches(c, tx) && tx !in c.unwritten && tx in before && DecodesTo(before[tx], groups)
    ensures IsOwn(c, tx, own) && tx in after
    ensures DecodesTo(after[tx], groups + own) <==> (tx !in c.unread || groups == [])
    ensures tx in c.unread ==> DecodesTo(after[tx], own)
  {
    var m :| IsSaved(c, before, tx, m, after[tx]);
    MadeParts(c, tx, m);
    own := GroupsIn(m);
    var kept := StoredGroups(before, c.unread, tx);
    assert kept == if tx in c.unread then [] else groups;
    EncodedDecodes(after[tx], ReceiptIn(m), kept + own);
    assert [] + own == own;
    assert groups != [] ==> |groups + own| != |own|;
  }

  /** Bytes that do not decode are replaced by the call's own group. */
  lemma UndecodableReplaced(c: Call, tx: Hash, before: Bytes, after: Bytes) returns (own: seq<Message>)
    requires Sized(before, tx) && Sized(after, tx) && Saved(c, before, after, tx)
    requires Touches(c, tx) && tx !in c.unwritten && tx in before
    requires Decode(RECORD_FIELDS, ZeroMessage(RECORD_FIELDS), before[tx]).Failed?
    ensures IsOwn(c, tx, own) && tx in after && DecodesTo(after[tx], own)
  {
    var m :| IsSaved(c, before, tx, m, after[tx]);
    MadeParts(c, tx, m);
    own := GroupsIn(m);
    assert [] + own == own;
    EncodedDecodes(after[tx], ReceiptIn(m), [] + own);
  }

  lemma SmallRecord(receipt: byte) returns (m: Message)
    ensures m == RecordMessage([receipt], []) && |Encode(RECORD_FIELDS, m)| == 3
  {
    m := RecordMessage([receipt], []);
    TagIsByte(1, U.LENGTH_DELIMITED);
    assert EncodeFrom(RECORD_FIELDS, m, 2) == [];
    assert EncodeFrom(RECORD_FIELDS, m, 1) == [] + [];
    assert EncodeField(1, Bytes, Blob([receipt])) == Delimited(1, [receipt]);
    assert EncodeVarint(1) == [1];
  }

  const LOST_TX: Hash := [1]
  const LOST_GROUP := GroupMessage(1, [[5]])

  lemma SmallGroup()
    ensures |Encode(RECORD_FIELDS, RecordMessage([], [LOST_GROUP]))| < 100
  {
    var m := RecordMessage([], [LOST_GROUP]);
    TagIsByte(1, U.VARINT);
    TagIsByte(2, U.LENGTH_DELIMITED);
    assert EncodeVarint(1) == [1];
    assert EncodeBlobs(2, [[5]]) == Delimited(2, [5]) + [];
    assert EncodeFrom(GROUP_FIELDS, LOST_GROUP, 2) == [];
    assert EncodeFrom(GROUP_FIELDS, LOST_GROUP, 1) == EncodeBlobs(2, [[5]]) + [];
    var group := EncodeFrom(GROUP_FIELDS, LOST_GROUP, 0);
    assert group == EncodeField(1, Uint32, Scalar(1)) + EncodeFrom(GROUP_FIELDS, LOST_GROUP, 1);
    assert |group| == 5;
    assert EncodeVarint(5) == [5];
    assert EncodeMessages(2, GROUP_FIELDS, [LOST_GROUP]) == Delimited(2, group) + [];
    assert EncodeFrom(RECORD_FIELDS, m, 2) == [];
    assert EncodeFrom(RECORD_FIELDS, m, 1) == EncodeMessages(2, GROUP_FIELDS, [LOST_GROUP]) + [];
    assert EncodeField(1, RECORD_FIELDS[0], m.values[0]) == [];
    assert Encode(RECORD_FIELDS, m) == [] + EncodeFrom(RECORD_FIELDS, m, 1);
  }

  /** One storer and one call, unable to read it, after which the group stored before is gone. */
  lemma EarlierGroupsDisappear() returns (c: Call, before: Bytes, after: Bytes)
    ensures AllSized(before) && AllSized(after) && AllSaved(c, before, after)
    ensures Sized(before, LOST_TX) && LOST_TX in before && DecodesTo(before[LOST_TX], [LOST_GROUP])
    ensures Sized(after, LOST_TX) && LOST_TX in after && DecodesTo(after[LOST_TX], [])
  {
    var tx := LOST_TX;
    var made := SmallRecord(9);
    SmallGroup();
    c := Call(2, map[], map[[9] := Receipt(tx)], {tx}, {});
    before := map[tx := Encode(RECORD_FIELDS, RecordMessage([], [LOST_GROUP]))];
    after := map[tx := Encode(RECORD_FIELDS, made)];
    EncodedDecodes(before[tx], [], [LOST_GROUP]);
    EncodedDecodes(after[tx], [9], []);
    assert [9] in ReceiptsOf(c.receipts, tx);
    forall a ensures Saved(c, before, after, a) {
      if a == tx {
        assert [] + GroupsIn(made) == GroupsIn(made);
        assert IsSaved(c, before, tx, made, after[tx]);
      }
    }
  }
}
