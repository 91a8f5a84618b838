/**
 The history repository object: recording blocks, taking notifications about
 notarized blocks, and handing them on to stored metadata. Each method is
 proved against the operation of the same name on states.
 */
module HistoryRepository {
  import opened Bits
  import opened Hashes
  import opened History
  import opened HistoryLaws

  /** A miniblock to record, with what storage does meanwhile. */
  datatype Job = Job(mb: Miniblock, faults: Faults, evicted: set<Key>)

  datatype Body = Body(miniblocks: seq<Job>) | OtherBody

  /** Which of RecordBlock's own steps fail. */
  datatype BlockFaults = BlockFaults(epoch: bool, logs: bool, round: bool)

  datatype BlockStatus = Recorded | CannotCast | CannotSaveEpoch | CannotProcessLogs | CannotSaveRound

  function Records(header: Header, jobs: seq<Job>): seq<Event> {
    if jobs == [] then []
    else [Record(header, jobs[0].mb, jobs[0].faults, jobs[0].evicted)] + Records(header, jobs[1..])
  }

  function BodyRecords(header: Header, jobs: seq<Job>): seq<Event> {
    if jobs == [] then []
    else
      (if jobs[0].mb.miniblockType == PEER_BLOCK then []
       else [Record(header, jobs[0].mb, jobs[0].faults, jobs[0].evicted)])
      + BodyRecords(header, jobs[1..])
  }

  /** The events a block consists of: its header, its miniblocks without peer ones, those created here, its round. */
  function BlockEvents(header: Header, body: seq<Job>, created: seq<Job>): seq<Event> {
    [SaveHeader(header)] + (BodyRecords(header, body) + Records(header, created))
  }

  lemma NothingPending(s: State, failing: set<Hash>)
    requires s.notices == Notices(map[], map[], map[])
    ensures Consume(s, failing) == s
  {
    NothingAtSide(s, AtSource, failing);
    NothingAtSide(s, AtDestination, failing);
    NothingAtSide(s, AtBoth, failing);
  }

  lemma NothingAtSide(s: State, side: Side, failing: set<Hash>)
    requires PendingAt(s.notices, side) == map[]
    ensures ConsumeSide(s, side, failing) == s
  {
    assert Delivered(s.stores, map[], side, failing, {}) == s.stores.metadata;
    assert StillWaiting(s.stores, map[], failing, {}) == map[];
  }

  class HistoryRepository {
    const selfShardID: uint32

    var epochByHash: map<Hash, uint32>
    var metadata: map<Key, Metadata>
    var miniblockByTx: map<Hash, Hash>
    var blockByRound: map<uint64, Hash>

    var atSource: Pending
    var atDestination: Pending
    var atBoth: Pending

    var recent: set<Key>

    ghost function TheStores(): Stores
      reads this
    {
      Stores(epochByHash, metadata, miniblockByTx, blockByRound)
    }

    ghost function TheNotices(): Notices
      reads this
    {
      Notices(atSource, atDestination, atBoth)
    }

    ghost function View(): State
      reads this
    {
      State(TheStores(), TheNotices(), recent)
    }

    ghost predicate IsFiled()
      reads this
    {
      Filed(TheStores())
    }

    constructor (self: uint32)
      ensures View() == EMPTY && IsFiled() && selfShardID == self
    {
      selfShardID := self;
      epochByHash, metadata, miniblockByTx, blockByRound := map[], map[], map[], map[];
      atSource, atDestination, atBoth := map[], map[], map[];
      recent := {};
    }

    // ----- recording -----

    method RecordMiniblock(header: Header, job: Job) returns (ok: bool)
      requires IsFiled()
      modifies `epochByHash, `metadata, `miniblockByTx, `recent
      ensures IsFiled()
      ensures (View(), ok) == History.RecordMiniblock(old(View()), header, job.mb, job.faults, job.evicted)
      ensures var key := (job.mb.hash, header.epoch);
              ok && key !in old(recent) ==> key in metadata && RecordedAs(metadata[key], header, job.mb)
    {
      var mb, faults := job.mb, job.faults;
      if faults.hash {
        return false;
      }
      var key := (mb.hash, header.epoch);
      if key in recent {
        return true;
      }
      if faults.epoch {
        return false;
      }
      epochByHash := epochByHash[mb.hash := header.epoch];
      if faults.metadata {
        return false;
      }
      metadata := metadata[key := Fresh(header, mb)];
      recent := recent - job.evicted + {key};
      for k := 0 to |mb.txHashes|
        invariant epochByHash == old(epochByHash)[mb.hash := header.epoch]
        invariant metadata == old(metadata)[key := Fresh(header, mb)]
        invariant recent == old(recent) - job.evicted + {key}
        invariant IndexTxs(miniblockByTx, mb.txHashes[k..], mb.hash, faults.txs)
               == IndexTxs(old(miniblockByTx), mb.txHashes, mb.hash, faults.txs)
      {
        var txHash := mb.txHashes[k];
        assert mb.txHashes[k..][1..] == mb.txHashes[k + 1..];
        if txHash !in faults.txs {
          miniblockByTx := miniblockByTx[txHash := mb.hash];
        }
      }
      return true;
    }

    /** RecordBlock up to the stores kept here; errors of single miniblocks are passed over. */
    method RecordBlock(header: Header, body: Body, created: seq<Job>, faults: BlockFaults) returns (r: BlockStatus)
      requires IsFiled()
      modifies `epochByHash, `metadata, `miniblockByTx, `blockByRound, `recent
      ensures IsFiled()
      ensures r == if body.OtherBody? then CannotCast
                   else if faults.epoch then CannotSaveEpoch
                   else if faults.logs then CannotProcessLogs
                   else if faults.round then CannotSaveRound
                   else Recorded
      ensures match r
              case CannotCast => View() == old(View())
              case CannotSaveEpoch => View() == old(View())
              case Recorded =>
                View() == Run(selfShardID, old(View()), BlockEvents(header, body.miniblocks, created) + [SaveRound(header)])
              case _ => View() == Run(selfShardID, old(View()), BlockEvents(header, body.miniblocks, created))
    {
      if body.OtherBody? {
        return CannotCast;
      }
      if faults.epoch {
        return CannotSaveEpoch;
      }
      ghost var all := BlockEvents(header, body.miniblocks, created);
      ghost var final := Run(selfShardID, View(), all);
      epochByHash := epochByHash[header.hash := header.epoch];
      assert all[1..] == BodyRecords(header, body.miniblocks) + Records(header, created);
      for k := 0 to |body.miniblocks|
        invariant IsFiled()
        invariant Run(selfShardID, View(), BodyRecords(header, body.miniblocks[k..]) + Records(header, created)) == final
      {
        var job := body.miniblocks[k];
        ghost var rest := BodyRecords(header, body.miniblocks[k + 1..]) + Records(header, created);
        BodySplit(header, body.miniblocks, k, Records(header, created));
        if job.mb.miniblockType == PEER_BLOCK {
          assert [] + rest == rest;
          continue;
        }
        ghost var e := Record(header, job.mb, job.faults, job.evicted);
        RunConcat(selfShardID, View(), [e], rest);
        RunOne(selfShardID, View(), e);
        var ok := RecordMiniblock(header, job);
      }
      assert [] + Records(header, created) == Records(header, created);
      assert created[0..] == created;
      for k := 0 to |created|
        invariant IsFiled()
        invariant Run(selfShardID, View(), Records(header, created[k..])) == final
      {
        var job := created[k];
        assert created[k..][1..] == created[k + 1..];
        var ok := RecordMiniblock(header, job);
      }
      assert View() == final;
      if faults.logs {
        return CannotProcessLogs;
      }
      if faults.round {
        return CannotSaveRound;
      }
      RunConcat(selfShardID, old(View()), all, [SaveRound(header)]);
      RunOne(selfShardID, final, SaveRound(header));
      blockByRound := blockByRound[header.round := header.hash];
      return Recorded;
    }

    // ----- notifications -----

    method OnNotarizedMiniblock(at: Coordinates, shard: uint32, h: MiniblockHeader)
      modifies `atSource, `atDestination, `atBoth
      ensures TheNotices() == SetNotes(old(TheNotices()), NotesOf(selfShardID, at, shard, h))
      ensures var own := (h.sender == selfShardID || h.receiver == selfShardID) && h.miniblockType != PEER_BLOCK;
              var both := h.sender == h.receiver || h.receiver == 0xFFFF_FFFF;
              && atBoth == (if own && both then old(atBoth)[h.hash := at] else old(atBoth))
              && atSource == (if own && !both && shard == h.sender then old(atSource)[h.hash := at] else old(atSource))
              && atDestination == (if own && !both && shard == h.receiver && shard != h.sender
                                   then old(atDestination)[h.hash := at] else old(atDestination))
    {
      var isIntra := h.sender == h.receiver;
      var isToMeta := h.receiver == METACHAIN;
      var notFromMe := h.sender != selfShardID;
      var notToMe := h.receiver != selfShardID;
      if (notFromMe && notToMe) || h.miniblockType == PEER_BLOCK {
        return;
      }
      if isIntra || isToMeta {
        atBoth := atBoth[h.hash := at];
      } else if h.sender == shard {
        atSource := atSource[h.hash := at];
      } else if h.receiver == shard {
        atDestination := atDestination[h.hash := at];
      }
    }

    method OnNotarizedMiniblocks(at: Coordinates, shard: uint32, hs: seq<MiniblockHeader>)
      modifies `atSource, `atDestination, `atBoth
      ensures TheNotices() == SetNotes(old(TheNotices()), NotesOfAll(selfShardID, at, shard, hs))
    {
      for k := 0 to |hs|
        invariant SetNotes(TheNotices(), NotesOfAll(selfShardID, at, shard, hs[k..]))
               == SetNotes(old(TheNotices()), NotesOfAll(selfShardID, at, shard, hs))
      {
        assert hs[k..][1..] == hs[k + 1..];
        SetNotesConcat(TheNotices(), NotesOf(selfShardID, at, shard, hs[k]),
                       NotesOfAll(selfShardID, at, shard, hs[k + 1..]));
        OnNotarizedMiniblock(at, shard, hs[k]);
      }
    }

    method OnNotarizedInMetaBlocks(at: Coordinates, shards: seq<ShardData>)
      modifies `atSource, `atDestination, `atBoth
      ensures TheNotices() == SetNotes(old(TheNotices()), NotesOfShards(selfShardID, at, shards))
    {
      for k := 0 to |shards|
        invariant SetNotes(TheNotices(), NotesOfShards(selfShardID, at, shards[k..]))
               == SetNotes(old(TheNotices()), NotesOfShards(selfShardID, at, shards))
      {
        assert shards[k..][1..] == shards[k + 1..];
        var sd := shards[k];
        ghost var rest := NotesOfShards(selfShardID, at, shards[k + 1..]);
        if at.metaNonce < 1 {
          assert [] + rest == rest;
        } else {
          SetNotesConcat(TheNotices(), NotesOfAll(selfShardID, at, sd.shard, sd.headers), rest);
          OnNotarizedMiniblocks(at, sd.shard, sd.headers);
        }
      }
    }

    method OnNotarizedBlocks(headers: seq<NotarizedHeader>, failing: set<Hash>)
      requires IsFiled()
      modifies `metadata, `atSource, `atDestination, `atBoth
      ensures IsFiled()
      ensures View() == History.OnNotarizedBlocks(old(View()), selfShardID, headers, failing)
    {
      for k := 0 to |headers|
        invariant TheStores() == old(TheStores())
        invariant SetNotes(TheNotices(), NotesOfHeaders(selfShardID, headers[k..]))
               == SetNotes(old(TheNotices()), NotesOfHeaders(selfShardID, headers))
      {
        var header := headers[k];
        assert headers[k..][1..] == headers[k + 1..];
        ghost var rest := NotesOfHeaders(selfShardID, headers[k + 1..]);
        SetNotesConcat(TheNotices(), NotesOfHeader(selfShardID, header), rest);
        if header.MetaBlock? {
          var at := Coordinates(header.nonce, header.hash);
          SetNotesConcat(TheNotices(), NotesOfAll(selfShardID, at, header.shard, header.headers),
                         NotesOfShards(selfShardID, at, header.shardInfo));
          OnNotarizedMiniblocks(at, header.shard, header.headers);
          OnNotarizedInMetaBlocks(at, header.shardInfo);
        }
      }
      ConsumePendingNotifications(failing);
    }

    method ConsumePendingNotifications(failing: set<Hash>)
      requires IsFiled()
      modifies `metadata, `atSource, `atDestination, `atBoth
      ensures IsFiled() && View() == Consume(old(View()), failing)
    {
      if atSource == map[] && atDestination == map[] && atBoth == map[] {
        NothingPending(View(), failing);
        return;
      }
      atSource := ConsumePending(atSource, AtSource, failing);
      atDestination := ConsumePending(atDestination, AtDestination, failing);
      atBoth := ConsumePending(atBoth, AtBoth, failing);
    }

    /** One pending map, key by key in any order; what stays pending is returned. */
    method ConsumePending(pendingMap: Pending, side: Side, failing: set<Hash>) returns (pending: Pending)
      requires IsFiled()
      modifies `metadata
      ensures IsFiled()
      ensures metadata == Delivered(old(TheStores()), pendingMap, side, failing, pendingMap.Keys)
      ensures pending == StillWaiting(old(TheStores()), pendingMap, failing, pendingMap.Keys)
      ensures forall hash :: HandedOver(old(TheStores()), metadata, pendingMap, pending, side, failing, hash)
    {
      pending := pendingMap;
      forall hash ensures HandedOver(TheStores(), Delivered(TheStores(), pendingMap, side, failing, pendingMap.Keys), pendingMap,
                                     StillWaiting(TheStores(), pendingMap, failing, pendingMap.Keys), side, failing, hash) {
        DeliveredMeans(TheStores(), pendingMap, side, failing, hash);
      }
      var keys := pendingMap.Keys;
      ghost var st, done := TheStores(), {};
      DeliverNone(st, pendingMap, side, failing);
      while keys != {}
        invariant IsFiled() && keys + done == pendingMap.Keys && keys !! done
        invariant metadata == Delivered(st, pendingMap, side, failing, done)
        invariant pending == StillWaiting(st, pendingMap, failing, done)
        decreases keys
      {
        var key :| key in keys;
        DeliverOne(st, pendingMap, side, failing, done, key);
        keys := keys - {key};
        done := done + {key};
        var notification := pending[key];
        if key !in failing && key in epochByHash && (key, epochByHash[key]) in metadata {
          var found := metadata[(key, epochByHash[key])];
          var patched := Patch(side, found, notification);
          metadata := metadata[(key, patched.epoch) := patched];
          pending := pending - {key};
        }
      }
    }

    // ----- lookups -----

    method GetEpochByHash(hash: Hash, failing: set<Hash>) returns (found: bool, epoch: uint32)
      ensures found == (hash in epochByHash && hash !in failing) && (found ==> epoch == epochByHash[hash])
    {
      found := hash in epochByHash && hash !in failing;
      epoch := if found then epochByHash[hash] else 0;
    }

    /**
     The metadata of a transaction's miniblock: whenever the indexes are consistent,
     of the miniblock it was indexed for. Reads under the hashes in failing fail.
     */
    method GetMiniblockMetadataByTxHash(hash: Hash, failing: set<Hash>) returns (found: bool, m: Metadata)
      ensures found <==> && hash in miniblockByTx && hash !in failing
                         && Found(TheStores(), miniblockByTx[hash]) && miniblockByTx[hash] !in failing
      ensures found ==> m == metadata[(miniblockByTx[hash], epochByHash[miniblockByTx[hash]])]
      ensures IndexConsistent(TheStores()) && hash in miniblockByTx && {hash, miniblockByTx[hash]} !! failing ==>
                found && m.miniblockHash == miniblockByTx[hash] && m.epoch == epochByHash[miniblockByTx[hash]]
    {
      m := Metadata(0, 0, [], [], 0, 0, 0, 0, NOWHERE, NOWHERE);
      found := false;
      if hash in miniblockByTx && hash !in failing {
        var miniblockHash := miniblockByTx[hash];
        var known, epoch := GetEpochByHash(miniblockHash, failing);
        if known && (miniblockHash, epoch) in metadata {
          found, m := true, metadata[(miniblockHash, epoch)];
        }
        assert IndexConsistent(TheStores()) ==> Leads(TheStores(), miniblockHash);
      }
    }
  }

  lemma BodySplit(header: Header, jobs: seq<Job>, k: nat, rest: seq<Event>)
    requires k < |jobs|
    ensures var e := Record(header, jobs[k].mb, jobs[k].faults, jobs[k].evicted);
            BodyRecords(header, jobs[k..]) + rest ==
            (if jobs[k].mb.miniblockType == PEER_BLOCK then [] else [e]) + (BodyRecords(header, jobs[k + 1..]) + rest)
  {
    assert jobs[k..][1..] == jobs[k + 1..];
  }
}
