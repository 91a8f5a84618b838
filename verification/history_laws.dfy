/**
 Laws of the history repository over whole runs of its operations, each taken
 as one event: the indexes stay consistent, and the order of recording and
 notarizing a miniblock does not matter.
 */
module HistoryLaws {
  import opened Bits
  import opened Hashes
  import opened History

  /** What one operation, or one miniblock of RecordBlock, does. */
  datatype Event =
    | SaveHeader(header: Header)
    | Record(header: Header, mb: Miniblock, faults: Faults, evicted: set<Key>)
    | Notarized(headers: seq<NotarizedHeader>, failing: set<Hash>)
    | SaveRound(header: Header)

  function Apply(self: uint32, s: State, e: Event): State {
    match e
    case SaveHeader(h) => s.(stores := SaveEpoch(s.stores, h.hash, h.epoch))
    case Record(h, mb, faults, evicted) => RecordMiniblock(s, h, mb, faults, evicted).0
    case Notarized(headers, failing) => OnNotarizedBlocks(s, self, headers, failing)
    case SaveRound(h) => s.(stores := PutRound(s.stores, h))
  }

  function Run(self: uint32, s: State, events: seq<Event>): State
    decreases |events|
  {
    if events == [] then s else Run(self, Apply(self, s, events[0]), events[1..])
  }

  lemma {:induction false} RunConcat(self: uint32, s: State, a: seq<Event>, b: seq<Event>)
    ensures Run(self, s, a + b) == Run(self, Run(self, s, a), b)
    decreases |a|
  {
    if a == [] {
      assert a + b == b;
    } else {
      assert (a + b)[1..] == a[1..] + b;
      RunConcat(self, Apply(self, s, a[0]), a[1..], b);
    }
  }

  lemma RunOne(self: uint32, s: State, e: Event)
    ensures Run(self, s, [e]) == Apply(self, s, e)
  {
    assert Run(self, Apply(self, s, e), [e][1..]) == Apply(self, s, e);
  }

  lemma {:induction false} SetNotesConcat(n: Notices, a: seq<Note>, b: seq<Note>)
    ensures SetNotes(n, a + b) == SetNotes(SetNotes(n, a), b)
    decreases |a|
  {
    if a == [] {
      assert a + b == b;
    } else {
      assert (a + b)[1..] == a[1..] + b;
      SetNotesConcat(SetNote(n, a[0]), a[1..], b);
    }
  }

  // ----- consumption, notification by notification -----

  /** Delivering one more notification. */
  lemma DeliverOne(st: Stores, pending: Pending, side: Side, failing: set<Hash>, done: set<Hash>, hash: Hash)
    requires hash in pending && hash !in done && Filed(st)
    ensures var now := done + {hash};
            if Deliverable(st, pending, failing, hash) then
              var key := (hash, st.epochByHash[hash]);
              && Delivered(st, pending, side, failing, now)
                 == Delivered(st, pending, side, failing, done)[key := Patch(side, st.metadata[key], pending[hash])]
              && StillWaiting(st, pending, failing, now) == StillWaiting(st, pending, failing, done) - {hash}
            else
              && Delivered(st, pending, side, failing, now) == Delivered(st, pending, side, failing, done)
              && StillWaiting(st, pending, failing, now) == StillWaiting(st, pending, failing, done)
  {
  }

  /**
   One hash of a pending map: if nothing fails for it and its metadata is where
   lookups look, its coordinates are stored and it leaves the map; otherwise it waits.
   */
  predicate HandedOver(st: Stores, metadata: map<Key, Metadata>, before: Pending, after: Pending, side: Side,
                       failing: set<Hash>, hash: Hash)
  {
    if hash in before && hash !in failing && hash in st.epochByHash && (hash, st.epochByHash[hash]) in st.metadata then
      var key := (hash, st.epochByHash[hash]);
      && hash !in after && key in metadata && SameRecord(st.metadata[key], metadata[key])
      && metadata[key].atSource == (if side == AtDestination then st.metadata[key].atSource else before[hash])
      && metadata[key].atDestination == (if side == AtSource then st.metadata[key].atDestination else before[hash])
    else
      (hash in after <==> hash in before) && (hash in before ==> after[hash] == before[hash])
  }

  lemma DeliveredMeans(st: Stores, pending: Pending, side: Side, failing: set<Hash>, hash: Hash)
    ensures HandedOver(st, Delivered(st, pending, side, failing, pending.Keys), pending,
                       StillWaiting(st, pending, failing, pending.Keys), side, failing, hash)
  {
  }

  lemma DeliverNone(st: Stores, pending: Pending, side: Side, failing: set<Hash>)
    ensures Delivered(st, pending, side, failing, {}) == st.metadata && StillWaiting(st, pending, failing, {}) == pending
  {
  }

  // ----- consistency of the indexes -----

  /** Every indexed transaction leads, through its miniblock's epoch, to that miniblock's metadata. */
  predicate IndexConsistent(st: Stores) {
    forall tx | tx in st.miniblockByTx :: Leads(st, st.miniblockByTx[tx])
  }

  predicate Leads(st: Stores, hash: Hash) {
    && Found(st, hash)
    && var m := st.metadata[(hash, st.epochByHash[hash])];
       m.miniblockHash == hash && m.epoch == st.epochByHash[hash]
  }

  lemma {:induction false} IndexTxsAt(index: map<Hash, Hash>, txHashes: seq<Hash>, mb: Hash, failing: set<Hash>, tx: Hash)
    ensures var r := IndexTxs(index, txHashes, mb, failing);
            if tx in txHashes && tx !in failing then tx in r && r[tx] == mb
            else (tx in r <==> tx in index) && (tx in r ==> r[tx] == index[tx])
    decreases |txHashes|
  {
    if txHashes != [] {
      var index' := if txHashes[0] in failing then index else index[txHashes[0] := mb];
      IndexTxsAt(index', txHashes[1..], mb, failing, tx);
    }
  }

  /** Notarization only patches metadata that is there. */
  predicate OnlyPatched(st: Stores, st': Stores) {
    && st'.metadata.Keys == st.metadata.Keys
    && st'.epochByHash == st.epochByHash && st'.miniblockByTx == st.miniblockByTx
    && forall key | key in st.metadata ::
         && st'.metadata[key].miniblockHash == st.metadata[key].miniblockHash
         && st'.metadata[key].epoch == st.metadata[key].epoch
  }

  lemma NotarizedPatches(s: State, self: uint32, headers: seq<NotarizedHeader>, failing: set<Hash>)
    ensures OnlyPatched(s.stores, OnNotarizedBlocks(s, self, headers, failing).stores)
  {
    var s0 := s.(notices := SetNotes(s.notices, NotesOfHeaders(self, headers)));
    var s1 := ConsumeSide(s0, AtSource, failing);
    var s2 := ConsumeSide(s1, AtDestination, failing);
    ConsumePatches(s0, AtSource, failing);
    ConsumePatches(s1, AtDestination, failing);
    ConsumePatches(s2, AtBoth, failing);
  }

  lemma ConsumePatches(s: State, side: Side, failing: set<Hash>)
    ensures OnlyPatched(s.stores, ConsumeSide(s, side, failing).stores)
  {
  }

  /** Hashes of miniblocks and of block headers never coincide. */
  ghost predicate Apart(e: Event, isMiniblock: Hash -> bool) {
    match e
    case SaveHeader(h) => !isMiniblock(h.hash)
    case Record(_, mb, _, _) => isMiniblock(mb.hash)
    case _ => true
  }

  /** No write of this event fails after an earlier one of the same recording succeeded. */
  predicate WritesSucceed(e: Event) {
    e.Record? ==> !e.faults.metadata
  }

  ghost predicate IndexInvariant(st: Stores, isMiniblock: Hash -> bool) {
    IndexConsistent(st) && forall tx | tx in st.miniblockByTx :: isMiniblock(st.miniblockByTx[tx])
  }

  lemma RecordLeads(s: State, h: Header, mb: Miniblock, faults: Faults, evicted: set<Key>, hash: Hash)
    requires !faults.metadata
    requires Leads(s.stores, hash) || (hash == mb.hash && !faults.hash && !faults.epoch && (mb.hash, h.epoch) !in s.recent)
    ensures Leads(RecordMiniblock(s, h, mb, faults, evicted).0.stores, hash)
  {
  }

  lemma RecordKeepsIndex(s: State, h: Header, mb: Miniblock, faults: Faults, evicted: set<Key>, isMiniblock: Hash -> bool)
    requires IndexInvariant(s.stores, isMiniblock) && isMiniblock(mb.hash) && !faults.metadata
    ensures IndexInvariant(RecordMiniblock(s, h, mb, faults, evicted).0.stores, isMiniblock)
  {
    var st, r := s.stores, RecordMiniblock(s, h, mb, faults, evicted).0.stores;
    forall tx | tx in r.miniblockByTx
      ensures Leads(r, r.miniblockByTx[tx]) && isMiniblock(r.miniblockByTx[tx])
    {
      IndexTxsAt(st.miniblockByTx, mb.txHashes, mb.hash, faults.txs, tx);
      RecordLeads(s, h, mb, faults, evicted, r.miniblockByTx[tx]);
    }
  }

  lemma ApplyKeepsIndex(self: uint32, s: State, e: Event, isMiniblock: Hash -> bool)
    requires IndexInvariant(s.stores, isMiniblock) && Apart(e, isMiniblock) && WritesSucceed(e)
    ensures IndexInvariant(Apply(self, s, e).stores, isMiniblock)
  {
    var st, r := s.stores, Apply(self, s, e).stores;
    if e.Record? {
      RecordKeepsIndex(s, e.header, e.mb, e.faults, e.evicted, isMiniblock);
    } else {
      if e.Notarized? {
        NotarizedPatches(s, self, e.headers, e.failing);
      }
      forall tx | tx in st.miniblockByTx ensures Leads(r, st.miniblockByTx[tx]) {
        assert Leads(st, st.miniblockByTx[tx]);
      }
    }
  }

  /** Over every run the indexes stay consistent. */
  lemma {:induction false} RunKeepsIndex(self: uint32, s: State, events: seq<Event>, isMiniblock: Hash -> bool)
    requires IndexInvariant(s.stores, isMiniblock)
    requires forall e | e in events :: Apart(e, isMiniblock) && WritesSucceed(e)
    ensures IndexInvariant(Run(self, s, events).stores, isMiniblock)
    decreases |events|
  {
    if events != [] {
      ApplyKeepsIndex(self, s, events[0], isMiniblock);
      RunKeepsIndex(self, Apply(self, s, events[0]), events[1..], isMiniblock);
    }
  }

  lemma IndexConsistentAlways(self: uint32, events: seq<Event>, isMiniblock: Hash -> bool)
    requires forall e | e in events :: Apart(e, isMiniblock) && WritesSucceed(e)
    ensures IndexConsistent(Run(self, EMPTY, events).stores)
  {
    RunKeepsIndex(self, EMPTY, events, isMiniblock);
  }

  /**
   When the metadata write may fail, one recording keeps the indexes consistent
   except in exactly one case: the epoch was saved, the metadata was not, and an
   indexed transaction already led to this miniblock in another epoch only.
   */
  lemma RecordConsistentIff(s: State, h: Header, mb: Miniblock, faults: Faults, evicted: set<Key>)
    requires IndexConsistent(s.stores) && Filed(s.stores)
    ensures IndexConsistent(RecordMiniblock(s, h, mb, faults, evicted).0.stores) <==>
            !(&& !faults.hash && (mb.hash, h.epoch) !in s.recent && !faults.epoch && faults.metadata
              && (exists tx :: tx in s.stores.miniblockByTx && s.stores.miniblockByTx[tx] == mb.hash)
              && (mb.hash, h.epoch) !in s.stores.metadata)
  {
    var st, r := s.stores, RecordMiniblock(s, h, mb, faults, evicted).0.stores;
    if !faults.metadata {
      RecordKeepsIndex(s, h, mb, faults, evicted, _ => true);
    } else {
      forall tx | tx in st.miniblockByTx ensures st.miniblockByTx[tx] != mb.hash ==> Leads(r, st.miniblockByTx[tx]) {
        assert Leads(st, st.miniblockByTx[tx]);
      }
    }
  }

  /**
   A miniblock recorded for the first time in another epoch: lookups go to the
   new entry, and the entries of other epochs stay as they were.
   */
  lemma RecordRepoints(s: State, h: Header, mb: Miniblock, evicted: set<Key>)
    requires (mb.hash, h.epoch) !in s.recent
    ensures var st := s.stores; var r := RecordMiniblock(s, h, mb, NO_FAULTS, evicted).0.stores;
            && Found(r, mb.hash) && r.epochByHash[mb.hash] == h.epoch
            && r.metadata[(mb.hash, h.epoch)] == Fresh(h, mb)
            && (forall key | key in st.metadata && key != (mb.hash, h.epoch) ::
                  key in r.metadata && r.metadata[key] == st.metadata[key])
            && (forall tx | tx in mb.txHashes :: tx in r.miniblockByTx && r.miniblockByTx[tx] == mb.hash)
  {
    forall tx | tx in mb.txHashes
      ensures var index := IndexTxs(s.stores.miniblockByTx, mb.txHashes, mb.hash, {});
              tx in index && index[tx] == mb.hash
    {
      IndexTxsAt(s.stores.miniblockByTx, mb.txHashes, mb.hash, {}, tx);
    }
  }

  /**
   Recording a miniblock again keeps the coordinates stored for it exactly when
   its key is still remembered or the recording fails before its put.
   */
  lemma RecordKeepsEntryIff(s: State, h: Header, mb: Miniblock, faults: Faults, evicted: set<Key>)
    requires var key := (mb.hash, h.epoch);
             && key in s.stores.metadata
             && !(s.stores.metadata[key].atSource == NOWHERE && s.stores.metadata[key].atDestination == NOWHERE)
    ensures var key := (mb.hash, h.epoch); var r := RecordMiniblock(s, h, mb, faults, evicted).0.stores;
            && key in r.metadata
            && (r.metadata[key] == s.stores.metadata[key] <==>
                  key in s.recent || faults.hash || faults.epoch || faults.metadata)
  {
  }
}
