/**
 The index from a transaction to the hashes of its outcomes. Each call groups
 its results by original transaction and merges them, as bytes, with what the
 storer already holds.
 */
module ResultsIndex {
  import opened Bits
  import opened Hashes
  import opened Wire
  import opened ResultsHashes

  /** A transaction handler, as far as this index casts and reads it. */
  datatype Handler = SmartContractResult(originalTxHash: Hash) | Receipt(txHash: Hash) | OtherHandler

  /** One call of saveResultsHashes, with the keys the storer fails to read and to write. */
  datatype Call = Call(epoch: uint32, scResults: map<Hash, Handler>, receipts: map<Hash, Handler>,
                       unread: set<Hash>, unwritten: set<Hash>)

  function ScrsOf(handlers: map<Hash, Handler>, tx: Hash): set<Hash> {
    set h | h in handlers && handlers[h] == SmartContractResult(tx)
  }

  function ReceiptsOf(handlers: map<Hash, Handler>, tx: Hash): set<Hash> {
    set h | h in handlers && handlers[h] == Receipt(tx)
  }

  // ----- what one call does to one transaction -----

  predicate Touches(c: Call, tx: Hash) {
    ScrsOf(c.scResults, tx) != {} || ReceiptsOf(c.receipts, tx) != {}
  }

  /** A call adds a group for a transaction unless it also has a receipt for it. */
  predicate Groups(c: Call, tx: Hash) {
    ScrsOf(c.scResults, tx) != {} && ReceiptsOf(c.receipts, tx) == {}
  }

  ghost predicate IsGroup(c: Call, tx: Hash, group: Message) {
    exists hashes :: Enumerates(hashes, ScrsOf(c.scResults, tx)) && group == GroupMessage(c.epoch, hashes)
  }

  /** The record a call makes for a transaction, before merging. */
  ghost predicate MadeFor(c: Call, tx: Hash, m: Message) {
    if ReceiptsOf(c.receipts, tx) != {} then
      exists h :: h in ReceiptsOf(c.receipts, tx) && m == RecordMessage(h, [])
    else
      exists group :: IsGroup(c, tx, group) && m == RecordMessage([], [group])
  }

  /** The records a call makes, before merging. */
  ghost predicate AreMade(c: Call, views: map<Hash, Message>) {
    && (forall tx :: tx in views <==> Touches(c, tx))
    && forall tx | tx in views :: MadeFor(c, tx, views[tx])
  }

  function GroupsIn(m: Message): (groups: seq<Message>)
    requires ValidMessage(RECORD_FIELDS, m)
    ensures forall g | g in groups :: ValidMessage(GROUP_FIELDS, g)
  {
    assert ValidValue(RECORD_FIELDS[1], m.values[1]);
    m.values[1].messages
  }

  function ReceiptIn(m: Message): Hash
    requires ValidMessage(RECORD_FIELDS, m)
  {
    assert ValidValue(RECORD_FIELDS[0], m.values[0]);
    m.values[0].bytes
  }

  /** A Go slice has fewer than 2^63 bytes. */
  predicate Sized(storer: map<Hash, seq<byte>>, tx: Hash) {
    tx in storer ==> |storer[tx]| < TWO_63
  }

  /** The groups a merge finds; what cannot be read or decoded is given up. */
  function StoredGroups(storer: map<Hash, seq<byte>>, unread: set<Hash>, tx: Hash): (groups: seq<Message>)
    requires Sized(storer, tx)
    ensures forall g | g in groups :: ValidMessage(GROUP_FIELDS, g)
  {
    if tx !in storer || tx in unread then []
    else
      match Decode(RECORD_FIELDS, ZeroMessage(RECORD_FIELDS), storer[tx])
      case Failed(_) => []
      case Decoded(stored) => GroupsIn(stored)
  }

  /** A record with groups put in front of its own. */
  function WithGroups(groups: seq<Message>, m: Message): (r: Message)
    requires ValidMessage(RECORD_FIELDS, m) && forall g | g in groups :: ValidMessage(GROUP_FIELDS, g)
    ensures ValidMessage(RECORD_FIELDS, r)
  {
    RecordMessage(ReceiptIn(m), groups + GroupsIn(m))
  }

  /** What a call leaves stored for one transaction. */
  ghost predicate Saved(c: Call, storer: map<Hash, seq<byte>>, storer': map<Hash, seq<byte>>, tx: Hash)
    requires Sized(storer, tx)
  {
    if !Touches(c, tx) || tx in c.unwritten then
      (tx in storer' <==> tx in storer) && (tx in storer ==> storer'[tx] == storer[tx])
    else
      tx in storer' && exists m :: IsSaved(c, storer, tx, m, storer'[tx])
  }

  ghost predicate IsSaved(c: Call, storer: map<Hash, seq<byte>>, tx: Hash, m: Message, bytes: seq<byte>)
    requires Sized(storer, tx)
  {
    && MadeFor(c, tx, m) && ValidMessage(RECORD_FIELDS, m)
    && bytes == Encode(RECORD_FIELDS, WithGroups(StoredGroups(storer, c.unread, tx), m))
  }

  // ----- grouping, on values -----

  function ScrsWithin(handlers: map<Hash, Handler>, within: set<Hash>, tx: Hash): set<Hash> {
    set h | h in within && h in handlers && handlers[h] == SmartContractResult(tx)
  }

  /** The results of each transaction within a part of the handlers, in some order. */
  ghost predicate Listed(listed: map<Hash, seq<Hash>>, handlers: map<Hash, Handler>, within: set<Hash>) {
    && (forall tx :: tx in listed <==> ScrsWithin(handlers, within, tx) != {})
    && forall tx | tx in listed :: Enumerates(listed[tx], ScrsWithin(handlers, within, tx))
  }

  function Add(listed: map<Hash, seq<Hash>>, tx: Hash, h: Hash): map<Hash, seq<Hash>> {
    listed[tx := (if tx in listed then listed[tx] else []) + [h]]
  }

  /** One more handler adds its hash to the results of its own transaction only. */
  lemma ScrsOfMore(handlers: map<Hash, Handler>, within: set<Hash>, h: Hash, tx: Hash)
    requires h in handlers && h !in within
    ensures ScrsWithin(handlers, within + {h}, tx)
         == ScrsWithin(handlers, within, tx) + if handlers[h] == SmartContractResult(tx) then {h} else {}
  {
  }

  lemma ListOne(listed: map<Hash, seq<Hash>>, handlers: map<Hash, Handler>, within: set<Hash>, h: Hash)
    requires Listed(listed, handlers, within) && h in handlers && h !in within
    ensures Listed(if handlers[h].SmartContractResult? then Add(listed, handlers[h].originalTxHash, h) else listed,
                   handlers, within + {h})
  {
    var now := if handlers[h].SmartContractResult? then Add(listed, handlers[h].originalTxHash, h) else listed;
    forall tx ensures tx in now <==> ScrsWithin(handlers, within + {h}, tx) != {} {
      ScrsOfMore(handlers, within, h, tx);
    }
    forall tx | tx in now ensures Enumerates(now[tx], ScrsWithin(handlers, within + {h}, tx)) {
      ScrsOfMore(handlers, within, h, tx);
      assert h !in ScrsWithin(handlers, within, tx);
    }
  }

  // ----- receipts, on values -----

  function ReceiptsWithin(handlers: map<Hash, Handler>, within: set<Hash>, tx: Hash): set<Hash> {
    set h | h in within && h in handlers && handlers[h] == Receipt(tx)
  }

  /** For each transaction with a receipt in a part of the handlers, one such receipt. */
  ghost predicate Last(last: map<Hash, Hash>, receipts: map<Hash, Handler>, within: set<Hash>) {
    && (forall tx :: tx in last <==> ReceiptsWithin(receipts, within, tx) != {})
    && forall tx | tx in last :: last[tx] in ReceiptsWithin(receipts, within, tx)
  }

  /** One more receipt is the last one of its own transaction only. */
  lemma LastOne(last: map<Hash, Hash>, receipts: map<Hash, Handler>, within: set<Hash>, h: Hash)
    requires Last(last, receipts, within) && h in receipts && h !in within
    ensures Last(if receipts[h].Receipt? then last[receipts[h].txHash := h] else last, receipts, within + {h})
  {
    var now := if receipts[h].Receipt? then last[receipts[h].txHash := h] else last;
    forall tx ensures
      var r := ReceiptsWithin(receipts, within + {h}, tx);
      (tx in now <==> r != {}) && (tx in now ==> now[tx] in r)
    {
      var before, after := ReceiptsWithin(receipts, within, tx), ReceiptsWithin(receipts, within + {h}, tx);
      assert after == before + if receipts[h] == Receipt(tx) then {h} else {};
    }
  }

  /** One group for each transaction with results, unless it has a receipt. */
  ghost function Overlaid(epoch: uint32, listed: map<Hash, seq<Hash>>, last: map<Hash, Hash>): map<Hash, Message> {
    map tx | tx in listed.Keys + last.Keys ::
      if tx in last then RecordMessage(last[tx], []) else RecordMessage([], [GroupMessage(epoch, listed[tx])])
  }

  /** What is in done is written, and nothing else is. */
  ghost predicate Put(storer: map<Hash, seq<byte>>, storer': map<Hash, seq<byte>>, bytes: map<Hash, seq<byte>>, done: set<Hash>)
    requires done <= bytes.Keys
  {
    forall tx ::
      if tx in done then tx in storer' && storer'[tx] == bytes[tx]
      else (tx in storer' <==> tx in storer) && (tx in storer ==> storer'[tx] == storer[tx])
  }

  // ----- the index object -----

  ghost predicate Apart<T>(objects: map<Hash, T>, a: Hash, b: Hash)
    requires a in objects && b in objects
  {
    a != b ==> objects[a] != objects[b]
  }

  /** Different keys have different objects. */
  ghost predicate Separate<T>(objects: map<Hash, T>) {
    forall a, b {:trigger Apart(objects, a, b)} | a in objects && b in objects :: Apart(objects, a, b)
  }

  lemma StaySeparate<T>(objects: map<Hash, T>, tx: Hash, added: T)
    requires Separate(objects) && forall a | a in objects :: objects[a] != added
    ensures Separate(objects[tx := added])
  {
    var now := objects[tx := added];
    forall a, b | a in now && b in now ensures Apart(now, a, b) {
      assert a != tx && b != tx ==> Apart(objects, a, b);
    }
  }

  /** A record that holds one group and no receipt. */
  ghost predicate Holds(r: ResultsHashesByTxHash, group: ScResultsHashesAndEpoch, epoch: uint32, hashes: seq<Hash>)
    reads r, group
  {
    && r.receiptsHash == [] && r.scResultsHashesAndEpoch == [group]
    && group.epoch == epoch && group.scResultsHashes == hashes
  }

  /** The records under construction: every one holds its own group with the hashes listed so far. */
  ghost predicate Building(m: map<Hash, ResultsHashesByTxHash>, groups: map<Hash, ScResultsHashesAndEpoch>,
                           listed: map<Hash, seq<Hash>>, epoch: uint32)
    reads m.Values, groups.Values
  {
    && m.Keys == groups.Keys == listed.Keys && Separate(m) && Separate(groups)
    && forall tx | tx in m :: Holds(m[tx], groups[tx], epoch, listed[tx])
  }

  lemma HoldsView(r: ResultsHashesByTxHash, group: ScResultsHashesAndEpoch, epoch: uint32, hashes: seq<Hash>)
    requires Holds(r, group, epoch, hashes)
    ensures r.View() == RecordMessage([], [GroupMessage(epoch, hashes)])
  {
    assert Views([group]) == [GroupMessage(epoch, hashes)];
  }

  /** A transaction that had no record gets one with an empty group. */
  method NewRecord(m: map<Hash, ResultsHashesByTxHash>, ghost groups: map<Hash, ScResultsHashesAndEpoch>,
                   ghost listed: map<Hash, seq<Hash>>, epoch: uint32, tx: Hash)
    returns (record: ResultsHashesByTxHash, group: ScResultsHashesAndEpoch)
    requires Building(m, groups, listed, epoch) && tx !in m
    ensures fresh(record) && fresh(group)
    ensures Building(m[tx := record], groups[tx := group], listed[tx := []], epoch)
  {
    group := new ScResultsHashesAndEpoch(epoch);
    record := new ResultsHashesByTxHash();
    record.scResultsHashesAndEpoch := [group];
    assert Holds(record, group, epoch, []);
    StaySeparate(m, tx, record);
    StaySeparate(groups, tx, group);
    forall a | a in m ensures m[a] != record && groups[a] != group && Holds(m[a], groups[a], epoch, listed[a]) {
      assert old(Holds(m[a], groups[a], epoch, listed[a]));
    }
  }

  /** One more hash for a transaction that has its record. */
  method AppendHash(m: map<Hash, ResultsHashesByTxHash>, ghost groups: map<Hash, ScResultsHashesAndEpoch>,
                    ghost listed: map<Hash, seq<Hash>>, epoch: uint32, tx: Hash, h: Hash)
    requires Building(m, groups, listed, epoch) && tx in m
    modifies groups[tx]
    ensures Building(m, groups, Add(listed, tx, h), epoch)
  {
    var group := m[tx].scResultsHashesAndEpoch[0];
    assert group == groups[tx];
    forall a | a in m && a != tx ensures groups[a] != group {
      assert Apart(groups, a, tx);
    }
    group.scResultsHashes := group.scResultsHashes + [h];
    forall a | a in m ensures Holds(m[a], groups[a], epoch, Add(listed, tx, h)[a]) {
      assert old(Holds(m[a], groups[a], epoch, listed[a]));
    }
  }

  /** One more hash for a transaction, which gets a record if it has none. */
  method AddHash(m: map<Hash, ResultsHashesByTxHash>, ghost groups: map<Hash, ScResultsHashesAndEpoch>,
                 ghost listed: map<Hash, seq<Hash>>, epoch: uint32, tx: Hash, h: Hash)
    returns (m': map<Hash, ResultsHashesByTxHash>, ghost groups': map<Hash, ScResultsHashesAndEpoch>)
    requires Building(m, groups, listed, epoch)
    modifies if tx in groups then {groups[tx]} else {}
    ensures Building(m', groups', Add(listed, tx, h), epoch) && tx in m' && tx in groups'
    ensures tx in m ==> m' == m && groups' == groups
    ensures tx !in m ==> fresh(m'[tx]) && fresh(groups'[tx])
    ensures tx !in m ==> m' == m[tx := m'[tx]] && groups' == groups[tx := groups'[tx]]
  {
    if tx in m {
      m', groups' := m, groups;
      AppendHash(m', groups', listed, epoch, tx, h);
    } else {
      var record, group := NewRecord(m, groups, listed, epoch, tx);
      m', groups' := m[tx := record], groups[tx := group];
      ghost var listed' := listed[tx := []];
      AppendHash(m', groups', listed', epoch, tx, h);
      assert Add(listed', tx, h) == Add(listed, tx, h);
    }
  }

  /** A record that holds a receipt and no group. */
  ghost predicate HoldsReceipt(r: ResultsHashesByTxHash, receiptHash: Hash)
    reads r
  {
    r.receiptsHash == receiptHash && r.scResultsHashesAndEpoch == []
  }

  lemma ReceiptView(r: ResultsHashesByTxHash, receiptHash: Hash)
    requires HoldsReceipt(r, receiptHash)
    ensures r.View() == RecordMessage(receiptHash, [])
  {
    assert Views([]) == [];
  }

  /** A receipt's record takes the place of whatever the transaction had. */
  method PutReceipt(m: map<Hash, ResultsHashesByTxHash>, tx: Hash, receiptHash: Hash)
    returns (m': map<Hash, ResultsHashesByTxHash>, ghost record: ResultsHashesByTxHash)
    requires Separate(m)
    ensures m' == m[tx := record] && Separate(m') && fresh(record) && HoldsReceipt(record, receiptHash)
  {
    var added := new ResultsHashesByTxHash();
    added.receiptsHash := receiptHash;
    StaySeparate(m, tx, added);
    m', record := m[tx := added], added;
  }

  class EventsHashesByTxHash {
    var storer: map<Hash, seq<byte>>

    constructor ()
      ensures storer == map[]
    {
      storer := map[];
    }

    method GroupSmartContractResults(epoch: uint32, scrResults: map<Hash, Handler>)
      returns (m: map<Hash, ResultsHashesByTxHash>, ghost listed: map<Hash, seq<Hash>>)
      ensures Separate(m) && m.Keys == listed.Keys && Listed(listed, scrResults, scrResults.Keys)
      ensures forall tx | tx in m :: fresh(m[tx]) && m[tx].View() == RecordMessage([], [GroupMessage(epoch, listed[tx])])
    {
      m, listed := map[], map[];
      ghost var groups: map<Hash, ScResultsHashesAndEpoch> := map[];
      var hashes := scrResults.Keys;
      ghost var done: set<Hash> := {};
      while hashes != {}
        invariant done + hashes == scrResults.Keys && done !! hashes
        invariant Listed(listed, scrResults, done) && Building(m, groups, listed, epoch)
        invariant forall tx | tx in m :: fresh(m[tx]) && fresh(groups[tx])
        decreases hashes
      {
        var scrHash :| scrHash in hashes;
        ListOne(listed, scrResults, done, scrHash);
        hashes, done := hashes - {scrHash}, done + {scrHash};
        var handler := scrResults[scrHash];
        if !handler.SmartContractResult? {
          continue;
        }
        m, groups := AddHash(m, groups, listed, epoch, handler.originalTxHash, scrHash);
        listed := Add(listed, handler.originalTxHash, scrHash);
      }
      assert done == scrResults.Keys;
      forall tx | tx in m ensures m[tx].View() == RecordMessage([], [GroupMessage(epoch, listed[tx])])
      {
        HoldsView(m[tx], groups[tx], epoch, listed[tx]);
      }
    }

    method GroupTransactionOutcomes(c: Call) returns (m: map<Hash, ResultsHashesByTxHash>, ghost views: map<Hash, Message>)
      ensures Separate(m) && m.Keys == views.Keys && (forall tx | tx in m :: fresh(m[tx]) && m[tx].View() == views[tx])
      ensures AreMade(c, views)
    {
      ghost var listed, last;
      var grouped;
      grouped, listed := GroupSmartContractResults(c.epoch, c.scResults);
      label Grouping:
      m, last := ReplaceWithReceipts(grouped, c.receipts);
      views := Overlaid(c.epoch, listed, last);
      forall tx | tx in m ensures m[tx].View() == views[tx] {
        if tx in last {
          ReceiptView(m[tx], last[tx]);
        } else {
          assert m[tx].View() == old@Grouping(grouped[tx].View());
        }
      }
      AllMade(c, listed, last);
    }

    /** The loop over the receipts; last remembers which receipt each transaction ended up with. */
    method ReplaceWithReceipts(m: map<Hash, ResultsHashesByTxHash>, receipts: map<Hash, Handler>)
      returns (m': map<Hash, ResultsHashesByTxHash>, ghost last: map<Hash, Hash>)
      requires Separate(m)
      ensures Separate(m') && m'.Keys == m.Keys + last.Keys && Last(last, receipts, receipts.Keys)
      ensures forall tx | tx in last :: fresh(m'[tx]) && HoldsReceipt(m'[tx], last[tx])
      ensures forall tx | tx in m && tx !in last :: m'[tx] == m[tx]
    {
      m', last := m, map[];
      var hashes := receipts.Keys;
      ghost var done: set<Hash> := {};
      while hashes != {}
        invariant done + hashes == receipts.Keys && done !! hashes && Last(last, receipts, done)
        invariant Separate(m') && m'.Keys == m.Keys + last.Keys
        invariant forall tx | tx in last :: fresh(m'[tx]) && HoldsReceipt(m'[tx], last[tx])
        invariant forall tx | tx in m && tx !in last :: m'[tx] == m[tx]
        decreases hashes
      {
        var receiptHash :| receiptHash in hashes;
        LastOne(last, receipts, done, receiptHash);
        hashes, done := hashes - {receiptHash}, done + {receiptHash};
        var handler := receipts[receiptHash];
        if handler.Receipt? {
          ghost var record;
          m', record := PutReceipt(m', handler.txHash, receiptHash);
          last := last[handler.txHash := receiptHash];
        }
      }
      assert done == receipts.Keys;
    }

    /** The record stored for a transaction, if it can be read and decoded. */
    method LoadRecord(tx: Hash, unread: set<Hash>) returns (found: bool, record: ResultsHashesByTxHash)
      requires Sized(storer, tx)
      ensures fresh(record)
      ensures StoredGroups(storer, unread, tx) == if found then Views(record.scResultsHashesAndEpoch) else []
    {
      record := new ResultsHashesByTxHash();
      if tx in unread || tx !in storer {
        return false, record;
      }
      var status := record.Unmarshal(storer[tx]);
      assert GroupsIn(record.View()) == Views(record.scResultsHashesAndEpoch);
      found := status.Done?;
    }

    /** The stored groups go in front of the groups of results. */
    method MergeGroups(tx: Hash, results: ResultsHashesByTxHash, unread: set<Hash>)
      requires Sized(storer, tx)
      modifies results
      ensures results.View() == WithGroups(StoredGroups(storer, unread, tx), old(results.View()))
    {
      var found, record := LoadRecord(tx, unread);
      ghost var own := Views(results.scResultsHashesAndEpoch);
      assert [] + own == own;
      if found {
        ViewsConcat(record.scResultsHashesAndEpoch, results.scResultsHashesAndEpoch);
        results.scResultsHashesAndEpoch := record.scResultsHashesAndEpoch + results.scResultsHashesAndEpoch;
      }
    }

    method MergeRecordsFromStorageIfExists(records: map<Hash, ResultsHashesByTxHash>, unread: set<Hash>,
                                           ghost merged: map<Hash, Message>)
      requires Separate(records) && records.Keys == merged.Keys && forall tx | tx in records :: Sized(storer, tx)
      requires forall tx {:trigger StoredGroups(storer, unread, tx)} | tx in records ::
                 merged[tx] == WithGroups(StoredGroups(storer, unread, tx), records[tx].View())
      modifies records.Values
      ensures forall tx | tx in records :: records[tx].View() == merged[tx]
    {
      var keys := records.Keys;
      while keys != {}
        invariant keys <= records.Keys
        invariant forall tx | tx in keys :: unchanged(records[tx])
        invariant forall tx | tx in records && tx !in keys :: records[tx].View() == merged[tx]
        decreases keys
      {
        var tx :| tx in keys;
        keys := keys - {tx};
        assert records[tx].View() == old(records[tx].View());
        forall a | a in records && a != tx ensures records[a] != records[tx] {
          assert Apart(records, a, tx);
        }
        MergeGroups(tx, records[tx], unread);
      }
    }

    method PutRecord(tx: Hash, record: ResultsHashesByTxHash, unwritten: set<Hash>, ghost bytes: seq<byte>)
      requires bytes == Encode(RECORD_FIELDS, record.View())
      modifies this
      ensures storer == if tx in unwritten then old(storer) else old(storer)[tx := bytes]
    {
      var resultHashesBytes := record.Marshal();
      if tx !in unwritten {
        storer := storer[tx := resultHashesBytes[..]];
      }
    }

    method PutRecords(results: map<Hash, ResultsHashesByTxHash>, unwritten: set<Hash>, ghost bytes: map<Hash, seq<byte>>)
      requires results.Keys == bytes.Keys
      requires forall tx | tx in results :: bytes[tx] == Encode(RECORD_FIELDS, results[tx].View())
      modifies this
      ensures Put(old(storer), storer, bytes, bytes.Keys - unwritten)
    {
      var keys := results.Keys;
      while keys != {}
        invariant keys <= results.Keys
        invariant Put(old(storer), storer, bytes, bytes.Keys - keys - unwritten)
        decreases keys
      {
        var tx :| tx in keys;
        keys := keys - {tx};
        assert results[tx].View() == old(results[tx].View());
        PutRecord(tx, results[tx], unwritten, bytes[tx]);
      }
    }

    method SaveResultsHashes(c: Call)
      requires forall tx :: Sized(storer, tx)
      modifies this
      ensures forall tx :: Sized(old(storer), tx) && Saved(c, old(storer), storer, tx)
    {
      var results, views := GroupTransactionOutcomes(c);
      ghost var before := storer;
      ghost var merged := AllMerged(storer, c.unread, views);
      MergeRecordsFromStorageIfExists(results, c.unread, merged);
      PutRecords(results, c.unwritten, AllBytes(merged));
      AllSaved(c, before, storer, views);
    }
  }

  ghost predicate ValidRecords(views: map<Hash, Message>) {
    forall tx | tx in views :: ValidMessage(RECORD_FIELDS, views[tx])
  }

  ghost function AllMerged(storer: map<Hash, seq<byte>>, unread: set<Hash>, views: map<Hash, Message>): (r: map<Hash, Message>)
    requires ValidRecords(views) && forall tx | tx in views :: Sized(storer, tx)
    ensures ValidRecords(r)
  {
    map tx | tx in views :: WithGroups(StoredGroups(storer, unread, tx), views[tx])
  }

  ghost function AllBytes(views: map<Hash, Message>): map<Hash, seq<byte>>
    requires ValidRecords(views)
  {
    map tx | tx in views :: Encode(RECORD_FIELDS, views[tx])
  }

  lemma AllSaved(c: Call, before: map<Hash, seq<byte>>, after: map<Hash, seq<byte>>, views: map<Hash, Message>)
    requires AreMade(c, views) && ValidRecords(views) && forall tx :: Sized(before, tx)
    requires var bytes := AllBytes(AllMerged(before, c.unread, views)); Put(before, after, bytes, bytes.Keys - c.unwritten)
    ensures forall tx :: Saved(c, before, after, tx)
  {
    forall tx ensures Saved(c, before, after, tx) {
      if Touches(c, tx) && tx !in c.unwritten {
        assert IsSaved(c, before, tx, views[tx], after[tx]);
      }
    }
  }

  lemma ViewsConcat(a: seq<ScResultsHashesAndEpoch>, b: seq<ScResultsHashesAndEpoch>)
    ensures Views(a + b) == Views(a) + Views(b)
  {
    var joined, ab := Views(a + b), a + b;
    forall k | 0 <= k < |joined| ensures joined[k] == (Views(a) + Views(b))[k] {
      assert joined[k] == ab[k].View();
    }
  }

  lemma AllMade(c: Call, listed: map<Hash, seq<Hash>>, last: map<Hash, Hash>)
    requires Listed(listed, c.scResults, c.scResults.Keys) && Last(last, c.receipts, c.receipts.Keys)
    ensures AreMade(c, Overlaid(c.epoch, listed, last))
  {
    var views := Overlaid(c.epoch, listed, last);
    forall tx ensures (tx in views <==> Touches(c, tx)) && (tx in views ==> MadeFor(c, tx, views[tx])) {
      assert ReceiptsWithin(c.receipts, c.receipts.Keys, tx) == ReceiptsOf(c.receipts, tx);
      assert ScrsWithin(c.scResults, c.scResults.Keys, tx) == ScrsOf(c.scResults, tx);
      if tx in views && tx !in last {
        assert IsGroup(c, tx, GroupMessage(c.epoch, listed[tx]));
      }
    }
  }
}
