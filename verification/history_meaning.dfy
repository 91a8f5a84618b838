/**
 What the operations of the history repository do, field by field and map by
 map, without speaking through the functions they are defined with.
 */
module HistoryMeaning {
  import opened Bits
  import opened Hashes
  import opened History
  import opened HistoryLaws

  // ----- recording -----

  /** Every case of recordMiniblock: what it returns, what it stores, what it leaves. */
  lemma RecordMeans(s: State, h: Header, mb: Miniblock, faults: Faults, evicted: set<Key>)
    ensures var (r, ok) := RecordMiniblock(s, h, mb, faults, evicted);
            var key, st, st' := (mb.hash, h.epoch), s.stores, r.stores;
            if faults.hash || key in s.recent || faults.epoch then r == s && ok == (!faults.hash && key in s.recent)
            else
              && st'.epochByHash == st.epochByHash[mb.hash := h.epoch]
              && st'.blockByRound == st.blockByRound && r.notices == s.notices && ok == !faults.metadata
              && if faults.metadata then
                   st'.metadata == st.metadata && st'.miniblockByTx == st.miniblockByTx && r.recent == s.recent
                 else
                   && key in st'.metadata && RecordedAs(st'.metadata[key], h, mb)
                   && st'.metadata == st.metadata[key := st'.metadata[key]]
                   && r.recent == s.recent - evicted + {key}
                   && forall tx ::
                        if tx in mb.txHashes && tx !in faults.txs then
                          tx in st'.miniblockByTx && st'.miniblockByTx[tx] == mb.hash
                        else
                          (tx in st'.miniblockByTx <==> tx in st.miniblockByTx)
                          && (tx in st.miniblockByTx ==> st'.miniblockByTx[tx] == st.miniblockByTx[tx])
  {
    forall tx ensures
      var r := IndexTxs(s.stores.miniblockByTx, mb.txHashes, mb.hash, faults.txs);
      if tx in mb.txHashes && tx !in faults.txs then tx in r && r[tx] == mb.hash
      else (tx in r <==> tx in s.stores.miniblockByTx) && (tx in r ==> r[tx] == s.stores.miniblockByTx[tx])
    {
      IndexTxsAt(s.stores.miniblockByTx, mb.txHashes, mb.hash, faults.txs, tx);
    }
  }

  // ----- notifications -----

  /** Which map one miniblock header of a metablock or of its shard info goes to. */
  lemma NotifiedMaps(n: Notices, self: uint32, at: Coordinates, shard: uint32, h: MiniblockHeader)
    ensures var r := SetNotes(n, NotesOf(self, at, shard, h));
            var own := (h.sender == self || h.receiver == self) && h.miniblockType != PEER_BLOCK;
            var both := h.sender == h.receiver || h.receiver == 0xFFFF_FFFF;
            && r.atBoth == (if own && both then n.atBoth[h.hash := at] else n.atBoth)
            && r.atSource == (if own && !both && shard == h.sender then n.atSource[h.hash := at] else n.atSource)
            && r.atDestination == (if own && !both && shard == h.receiver && shard != h.sender
                                   then n.atDestination[h.hash := at] else n.atDestination)
  {
    var notes := NotesOf(self, at, shard, h);
    if notes != [] {
      assert notes == [notes[0]];
      assert notes[1..] == [];
      assert SetNotes(n, notes) == SetNote(n, notes[0]);
    }
  }

  // ----- consuming -----

  /** A notification can be delivered: nothing about the hash fails, and its metadata is where lookups look. */
  predicate Reachable(st: Stores, failing: set<Hash>, hash: Hash) {
    && hash !in failing && hash in st.epochByHash && (hash, st.epochByHash[hash]) in st.metadata
  }

  /** What could be delivered left the map, the rest waits. */
  ghost predicate Forgotten(before: Pending, after: Pending, failing: set<Hash>, st: Stores) {
    forall hash :: (hash in after <==> hash in before && !Reachable(st, failing, hash))
                   && (hash in after ==> after[hash] == before[hash])
  }

  /** Only notifications in one map are delivered, and only where lookups look. */
  predicate Untouched(st: Stores, st': Stores, pending: Pending, failing: set<Hash>) {
    && st'.epochByHash == st.epochByHash && st'.miniblockByTx == st.miniblockByTx && st'.blockByRound == st.blockByRound
    && st'.metadata.Keys == st.metadata.Keys
    && forall key | key in st.metadata ::
         (key.0 in pending && Reachable(st, failing, key.0) && st.epochByHash[key.0] == key.1)
         || st'.metadata[key] == st.metadata[key]
  }

  lemma SourceConsumed(s: State, failing: set<Hash>)
    ensures var r := ConsumeSide(s, AtSource, failing); var st, st' := s.stores, r.stores;
            && Untouched(st, st', s.notices.atSource, failing)
            && Forgotten(s.notices.atSource, r.notices.atSource, failing, st)
            && r.notices.atDestination == s.notices.atDestination && r.notices.atBoth == s.notices.atBoth
            && r.recent == s.recent
            && forall hash | hash in s.notices.atSource && Reachable(st, failing, hash) ::
                 var m, m' := st.metadata[(hash, st.epochByHash[hash])], st'.metadata[(hash, st.epochByHash[hash])];
                 SameRecord(m, m') && m'.atSource == s.notices.atSource[hash] && m'.atDestination == m.atDestination
  {
  }

  lemma DestinationConsumed(s: State, failing: set<Hash>)
    ensures var r := ConsumeSide(s, AtDestination, failing); var st, st' := s.stores, r.stores;
            && Untouched(st, st', s.notices.atDestination, failing)
            && Forgotten(s.notices.atDestination, r.notices.atDestination, failing, st)
            && r.notices.atSource == s.notices.atSource && r.notices.atBoth == s.notices.atBoth
            && r.recent == s.recent
            && forall hash | hash in s.notices.atDestination && Reachable(st, failing, hash) ::
                 var m, m' := st.metadata[(hash, st.epochByHash[hash])], st'.metadata[(hash, st.epochByHash[hash])];
                 SameRecord(m, m') && m'.atDestination == s.notices.atDestination[hash] && m'.atSource == m.atSource
  {
  }

  lemma BothConsumed(s: State, failing: set<Hash>)
    ensures var r := ConsumeSide(s, AtBoth, failing); var st, st' := s.stores, r.stores;
            && Untouched(st, st', s.notices.atBoth, failing)
            && Forgotten(s.notices.atBoth, r.notices.atBoth, failing, st)
            && r.notices.atSource == s.notices.atSource && r.notices.atDestination == s.notices.atDestination
            && r.recent == s.recent
            && forall hash | hash in s.notices.atBoth && Reachable(st, failing, hash) ::
                 var m, m' := st.metadata[(hash, st.epochByHash[hash])], st'.metadata[(hash, st.epochByHash[hash])];
                 SameRecord(m, m') && m'.atSource == s.notices.atBoth[hash] && m'.atDestination == s.notices.atBoth[hash]
  {
  }

  /** One pass, for a hash that it can deliver to: what one side is told, and what the other side keeps. */
  predicate PassedOver(s: State, r: State, failing: set<Hash>, hash: Hash, atSource: Coordinates, atDestination: Coordinates) {
    var st, st' := s.stores, r.stores;
    && Reachable(st, failing, hash) && Reachable(st', failing, hash)
    && st'.epochByHash == st.epochByHash && st'.metadata.Keys == st.metadata.Keys
    && var m, m' := st.metadata[(hash, st.epochByHash[hash])], st'.metadata[(hash, st.epochByHash[hash])];
       SameRecord(m, m') && m'.atSource == atSource && m'.atDestination == atDestination
  }

  function Told(pending: Pending, hash: Hash, otherwise: Coordinates): Coordinates {
    if hash in pending then pending[hash] else otherwise
  }

  lemma SourcePass(s: State, failing: set<Hash>, hash: Hash)
    requires Reachable(s.stores, failing, hash)
    ensures var r, m := ConsumeSide(s, AtSource, failing), s.stores.metadata[(hash, s.stores.epochByHash[hash])];
            && PassedOver(s, r, failing, hash, Told(s.notices.atSource, hash, m.atSource), m.atDestination)
            && hash !in r.notices.atSource
            && r.notices.atDestination == s.notices.atDestination && r.notices.atBoth == s.notices.atBoth
  {
    SourceConsumed(s, failing);
  }

  lemma DestinationPass(s: State, failing: set<Hash>, hash: Hash)
    requires Reachable(s.stores, failing, hash)
    ensures var r, m := ConsumeSide(s, AtDestination, failing), s.stores.metadata[(hash, s.stores.epochByHash[hash])];
            && PassedOver(s, r, failing, hash, m.atSource, Told(s.notices.atDestination, hash, m.atDestination))
            && hash !in r.notices.atDestination
            && r.notices.atSource == s.notices.atSource && r.notices.atBoth == s.notices.atBoth
  {
    DestinationConsumed(s, failing);
  }

  lemma BothPass(s: State, failing: set<Hash>, hash: Hash)
    requires Reachable(s.stores, failing, hash)
    ensures var r, m := ConsumeSide(s, AtBoth, failing), s.stores.metadata[(hash, s.stores.epochByHash[hash])];
            && PassedOver(s, r, failing, hash, Told(s.notices.atBoth, hash, m.atSource),
                          Told(s.notices.atBoth, hash, m.atDestination))
            && hash !in r.notices.atBoth
            && r.notices.atSource == s.notices.atSource && r.notices.atDestination == s.notices.atDestination
  {
    BothConsumed(s, failing);
  }

  /** The three passes together, for one hash. */
  lemma Consumed(s: State, failing: set<Hash>, hash: Hash)
    requires Reachable(s.stores, failing, hash)
    ensures var r, n := Consume(s, failing), s.notices;
            var m := s.stores.metadata[(hash, s.stores.epochByHash[hash])];
            && PassedOver(s, r, failing, hash,
                          if hash in n.atBoth then n.atBoth[hash]
                          else if hash in n.atSource then n.atSource[hash] else m.atSource,
                          if hash in n.atBoth then n.atBoth[hash]
                          else if hash in n.atDestination then n.atDestination[hash] else m.atDestination)
            && hash !in r.notices.atSource && hash !in r.notices.atDestination && hash !in r.notices.atBoth
  {
    var s1 := ConsumeSide(s, AtSource, failing);
    var s2 := ConsumeSide(s1, AtDestination, failing);
    SourcePass(s, failing, hash);
    DestinationPass(s1, failing, hash);
    BothPass(s2, failing, hash);
  }

  // ----- from a metablock to stored coordinates -----

  lemma {:induction false} NotesOfAllConcat(self: uint32, at: Coordinates, shard: uint32, a: seq<MiniblockHeader>, b: seq<MiniblockHeader>)
    ensures NotesOfAll(self, at, shard, a + b) == NotesOfAll(self, at, shard, a) + NotesOfAll(self, at, shard, b)
    decreases |a|
  {
    if a == [] {
      assert a + b == b;
    } else {
      assert (a + b)[1..] == a[1..] + b;
      NotesOfAllConcat(self, at, shard, a[1..], b);
    }
  }

  lemma {:induction false} NotesOfShardsConcat(self: uint32, at: Coordinates, a: seq<ShardData>, b: seq<ShardData>)
    ensures NotesOfShards(self, at, a + b) == NotesOfShards(self, at, a) + NotesOfShards(self, at, b)
    decreases |a|
  {
    if a == [] {
      assert a + b == b;
    } else {
      assert (a + b)[1..] == a[1..] + b;
      NotesOfShardsConcat(self, at, a[1..], b);
    }
  }

  lemma {:induction false} NotesOfHeadersConcat(self: uint32, a: seq<NotarizedHeader>, b: seq<NotarizedHeader>)
    ensures NotesOfHeaders(self, a + b) == NotesOfHeaders(self, a) + NotesOfHeaders(self, b)
    decreases |a|
  {
    if a == [] {
      assert a + b == b;
    } else {
      assert (a + b)[1..] == a[1..] + b;
      NotesOfHeadersConcat(self, a[1..], b);
    }
  }

  /** No header names the miniblock. */
  predicate Unnamed(hs: seq<MiniblockHeader>, hash: Hash) {
    forall h | h in hs :: h.hash != hash
  }

  predicate UnnamedInShards(shards: seq<ShardData>, hash: Hash) {
    forall sd | sd in shards :: Unnamed(sd.headers, hash)
  }

  predicate NoNote(notes: seq<Note>, hash: Hash) {
    forall n | n in notes :: n.hash != hash
  }

  lemma {:induction false} UnnamedNoNote(self: uint32, at: Coordinates, shard: uint32, hs: seq<MiniblockHeader>, hash: Hash)
    requires Unnamed(hs, hash)
    ensures NoNote(NotesOfAll(self, at, shard, hs), hash)
    decreases |hs|
  {
    if hs != [] {
      assert hs[0] in hs;
      UnnamedNoNote(self, at, shard, hs[1..], hash);
    }
  }

  lemma {:induction false} UnnamedShardsNoNote(self: uint32, at: Coordinates, shards: seq<ShardData>, hash: Hash)
    requires UnnamedInShards(shards, hash)
    ensures NoNote(NotesOfShards(self, at, shards), hash)
    decreases |shards|
  {
    if shards != [] {
      assert shards[0] in shards;
      UnnamedNoNote(self, at, shards[0].shard, shards[0].headers, hash);
      UnnamedShardsNoNote(self, at, shards[1..], hash);
    }
  }

  predicate SameAt(p: Pending, p': Pending, hash: Hash) {
    (hash in p' <==> hash in p) && (hash in p ==> p'[hash] == p[hash])
  }

  predicate SameNotices(n: Notices, n': Notices, hash: Hash) {
    SameAt(n.atSource, n'.atSource, hash) && SameAt(n.atDestination, n'.atDestination, hash) && SameAt(n.atBoth, n'.atBoth, hash)
  }

  lemma {:induction false} OtherNotes(n: Notices, notes: seq<Note>, hash: Hash)
    requires NoNote(notes, hash)
    ensures SameNotices(n, SetNotes(n, notes), hash)
    decreases |notes|
  {
    if notes != [] {
      assert notes[0] in notes;
      OtherNotes(SetNote(n, notes[0]), notes[1..], hash);
    }
  }

  predicate NothingPendingFor(n: Notices, hash: Hash) {
    hash !in n.atSource && hash !in n.atDestination && hash !in n.atBoth
  }

  /** The coordinates each side is left with when a header of a block of this shard is notarized. */
  predicate NotarizedBy(s: State, r: State, failing: set<Hash>, self: uint32, at: Coordinates, shard: uint32, h: MiniblockHeader) {
    Reachable(s.stores, failing, h.hash) &&
    var own := (h.sender == self || h.receiver == self) && h.miniblockType != PEER_BLOCK;
    var both := h.sender == h.receiver || h.receiver == 0xFFFF_FFFF;
    var m := s.stores.metadata[(h.hash, s.stores.epochByHash[h.hash])];
    && PassedOver(s, r, failing, h.hash,
                  if own && (both || shard == h.sender) then at else m.atSource,
                  if own && (both || shard == h.receiver) then at else m.atDestination)
    && NothingPendingFor(r.notices, h.hash)
  }

  /** One header's note among notes for other miniblocks. */
  lemma NotedOnce(s: State, failing: set<Hash>, self: uint32, at: Coordinates, shard: uint32, h: MiniblockHeader, a: seq<Note>, b: seq<Note>)
    requires Reachable(s.stores, failing, h.hash) && NothingPendingFor(s.notices, h.hash)
    requires NoNote(a, h.hash) && NoNote(b, h.hash)
    ensures NotarizedBy(s, Consume(s.(notices := SetNotes(s.notices, a + (NotesOf(self, at, shard, h) + b))), failing),
                        failing, self, at, shard, h)
  {
    var own := NotesOf(self, at, shard, h);
    var n1 := SetNotes(s.notices, a);
    var n2 := SetNotes(n1, own);
    SetNotesConcat(s.notices, a, own + b);
    SetNotesConcat(n1, own, b);
    OtherNotes(s.notices, a, h.hash);
    NotifiedMaps(n1, self, at, shard, h);
    OtherNotes(n2, b, h.hash);
    Consumed(s.(notices := SetNotes(n2, b)), failing, h.hash);
  }

  /**
   A stored miniblock that a metablock's shard info names once, in a block of some
   shard, ends with the metablock's coordinates at exactly the sides it should.
   */
  lemma ShardInfoNotarizes(s: State, failing: set<Hash>, self: uint32, nonce: uint64, hash: Hash, metaShard: uint32,
                           hs: seq<MiniblockHeader>, before: seq<ShardData>, shard: uint32,
                           a: seq<MiniblockHeader>, h: MiniblockHeader, b: seq<MiniblockHeader>, after: seq<ShardData>)
    requires nonce >= 1 && Reachable(s.stores, failing, h.hash) && NothingPendingFor(s.notices, h.hash)
    requires Unnamed(hs, h.hash) && UnnamedInShards(before, h.hash) && UnnamedInShards(after, h.hash)
    requires Unnamed(a, h.hash) && Unnamed(b, h.hash)
    ensures var header := MetaBlock(nonce, hash, metaShard, hs, before + ([ShardData(shard, a + ([h] + b))] + after));
            NotarizedBy(s, OnNotarizedBlocks(s, self, [header], failing), failing, self, Coordinates(nonce, hash), shard, h)
  {
    var at, sd := Coordinates(nonce, hash), ShardData(shard, a + ([h] + b));
    var early, late := ShardInfoNotes(self, at, metaShard, hs, before, shard, a, h, b, after);
    OneHeader(self, MetaBlock(nonce, hash, metaShard, hs, before + ([sd] + after)));
    NotedOnce(s, failing, self, at, shard, h, early, late);
  }

  /** The notes of such a metablock: those of that header, and others about other miniblocks. */
  lemma ShardInfoNotes(self: uint32, at: Coordinates, metaShard: uint32, hs: seq<MiniblockHeader>, before: seq<ShardData>,
                       shard: uint32, a: seq<MiniblockHeader>, h: MiniblockHeader, b: seq<MiniblockHeader>, after: seq<ShardData>)
    returns (early: seq<Note>, late: seq<Note>)
    requires at.metaNonce >= 1
    requires Unnamed(hs, h.hash) && UnnamedInShards(before, h.hash) && UnnamedInShards(after, h.hash)
    requires Unnamed(a, h.hash) && Unnamed(b, h.hash)
    ensures NotesOfAll(self, at, metaShard, hs) + NotesOfShards(self, at, before + ([ShardData(shard, a + ([h] + b))] + after))
         == early + (NotesOf(self, at, shard, h) + late)
    ensures NoNote(early, h.hash) && NoNote(late, h.hash)
  {
    var sd := ShardData(shard, a + ([h] + b));
    var p, q, r := NotesOfAll(self, at, metaShard, hs), NotesOfShards(self, at, before), NotesOfAll(self, at, shard, a);
    var t, u := NotesOfAll(self, at, shard, b), NotesOfShards(self, at, after);
    UnnamedNoNote(self, at, metaShard, hs, h.hash);
    UnnamedShardsNoNote(self, at, before, h.hash);
    UnnamedNoNote(self, at, shard, a, h.hash);
    UnnamedNoNote(self, at, shard, b, h.hash);
    UnnamedShardsNoNote(self, at, after, h.hash);
    NotesAround(self, at, shard, a, h, b);
    NotesOfShardsConcat(self, at, before, [sd] + after);
    assert ([sd] + after)[1..] == after;
    Regroup(p, q, r, NotesOf(self, at, shard, h), t, u);
    early, late := p + (q + r), t + u;
  }

  lemma Regroup(p: seq<Note>, q: seq<Note>, r: seq<Note>, x: seq<Note>, t: seq<Note>, u: seq<Note>)
    ensures p + (q + ((r + (x + t)) + u)) == p + (q + r) + (x + (t + u))
  {
  }

  /** The same for a miniblock that the metablock itself names once. */
  lemma MetaBlockNotarizes(s: State, failing: set<Hash>, self: uint32, nonce: uint64, hash: Hash, shard: uint32,
                           a: seq<MiniblockHeader>, h: MiniblockHeader, b: seq<MiniblockHeader>, shardInfo: seq<ShardData>)
    requires Reachable(s.stores, failing, h.hash) && NothingPendingFor(s.notices, h.hash)
    requires Unnamed(a, h.hash) && Unnamed(b, h.hash) && UnnamedInShards(shardInfo, h.hash)
    ensures var header := MetaBlock(nonce, hash, shard, a + ([h] + b), shardInfo);
            NotarizedBy(s, OnNotarizedBlocks(s, self, [header], failing), failing, self, Coordinates(nonce, hash), shard, h)
  {
    var at := Coordinates(nonce, hash);
    var early, late := MetaBlockNotes(self, at, shard, a, h, b, shardInfo);
    OneHeader(self, MetaBlock(nonce, hash, shard, a + ([h] + b), shardInfo));
    NotedOnce(s, failing, self, at, shard, h, early, late);
  }

  lemma MetaBlockNotes(self: uint32, at: Coordinates, shard: uint32, a: seq<MiniblockHeader>, h: MiniblockHeader,
                       b: seq<MiniblockHeader>, shardInfo: seq<ShardData>)
    returns (early: seq<Note>, late: seq<Note>)
    requires Unnamed(a, h.hash) && Unnamed(b, h.hash) && UnnamedInShards(shardInfo, h.hash)
    ensures NotesOfAll(self, at, shard, a + ([h] + b)) + NotesOfShards(self, at, shardInfo)
         == early + (NotesOf(self, at, shard, h) + late)
    ensures NoNote(early, h.hash) && NoNote(late, h.hash)
  {
    var r, t, u := NotesOfAll(self, at, shard, a), NotesOfAll(self, at, shard, b), NotesOfShards(self, at, shardInfo);
    UnnamedNoNote(self, at, shard, a, h.hash);
    UnnamedNoNote(self, at, shard, b, h.hash);
    UnnamedShardsNoNote(self, at, shardInfo, h.hash);
    NotesAround(self, at, shard, a, h, b);
    Regroup([], [], r, NotesOf(self, at, shard, h), t, u);
    early, late := [] + ([] + r), t + u;
  }

  lemma NotesAround(self: uint32, at: Coordinates, shard: uint32, a: seq<MiniblockHeader>, h: MiniblockHeader, b: seq<MiniblockHeader>)
    ensures NotesOfAll(self, at, shard, a + ([h] + b))
         == NotesOfAll(self, at, shard, a) + (NotesOf(self, at, shard, h) + NotesOfAll(self, at, shard, b))
  {
    NotesOfAllConcat(self, at, shard, a, [h] + b);
    assert ([h] + b)[1..] == b;
  }

  lemma OneHeader(self: uint32, header: NotarizedHeader)
    ensures NotesOfHeaders(self, [header]) == NotesOfHeader(self, header)
  {
    assert NotesOfHeaders(self, [header][1..]) == [];
  }

  /** The shard info of the genesis metablock and headers that are not metablocks are passed over. */
  lemma PassesOver(s: State, failing: set<Hash>, self: uint32, a: seq<NotarizedHeader>, b: seq<NotarizedHeader>,
                   hash: Hash, shard: uint32, hs: seq<MiniblockHeader>, shardInfo: seq<ShardData>)
    ensures OnNotarizedBlocks(s, self, a + ([OtherHeader] + b), failing) == OnNotarizedBlocks(s, self, a + b, failing)
    ensures OnNotarizedBlocks(s, self, a + ([MetaBlock(0, hash, shard, hs, shardInfo)] + b), failing)
         == OnNotarizedBlocks(s, self, a + ([MetaBlock(0, hash, shard, hs, [])] + b), failing)
  {
    NotesOfHeadersConcat(self, a, b);
    NotesOfHeadersConcat(self, a, [OtherHeader] + b);
    assert ([OtherHeader] + b)[1..] == b;
    assert [] + NotesOfHeaders(self, b) == NotesOfHeaders(self, b);
    var at, full, bare := Coordinates(0, hash), MetaBlock(0, hash, shard, hs, shardInfo), MetaBlock(0, hash, shard, hs, []);
    NothingFromGenesis(self, at, shardInfo);
    NotesOfHeadersConcat(self, a, [full] + b);
    NotesOfHeadersConcat(self, a, [bare] + b);
    assert ([full] + b)[1..] == b && ([bare] + b)[1..] == b;
  }

  lemma {:induction false} NothingFromGenesis(self: uint32, at: Coordinates, shards: seq<ShardData>)
    requires at.metaNonce == 0
    ensures NotesOfShards(self, at, shards) == []
    decreases |shards|
  {
    if shards != [] {
      NothingFromGenesis(self, at, shards[1..]);
    }
  }
}
