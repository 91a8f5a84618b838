/**
 The history repository on values: its stores, indexes and pending
 notifications as one state, and what each operation makes of that state.
 */
module History {
  import opened Bits
  import opened Hashes

  const METACHAIN: uint32 := 0xFFFF_FFFF

  /** block.PeerBlock of mx-chain-core-go, which is not part of this model; no law depends on the number. */
  const PEER_BLOCK: int32 := 60

  /** Where a miniblock was notarized: a metablock's nonce and hash. */
  datatype Coordinates = Coordinates(metaNonce: uint64, metaHash: Hash)

  const NOWHERE := Coordinates(0, [])

  datatype Metadata = Metadata(
    miniblockType: int32, epoch: uint32, headerHash: Hash, miniblockHash: Hash,
    round: uint64, headerNonce: uint64, sourceShard: uint32, destinationShard: uint32,
    atSource: Coordinates, atDestination: Coordinates)

  type Pending = map<Hash, Coordinates>

  /** A miniblock and an epoch: where metadata is stored, and what the deduplication cache remembers. */
  type Key = (Hash, uint32)

  datatype Stores = Stores(
    epochByHash: map<Hash, uint32>,
    metadata: map<Key, Metadata>,
    miniblockByTx: map<Hash, Hash>,
    blockByRound: map<uint64, Hash>)

  /** Notifications that wait for their miniblock to be stored. */
  datatype Notices = Notices(atSource: Pending, atDestination: Pending, atBoth: Pending)

  datatype State = State(stores: Stores, notices: Notices, recent: set<Key>)

  const EMPTY := State(Stores(map[], map[], map[], map[]), Notices(map[], map[], map[]), {})

  datatype Header = Header(hash: Hash, nonce: uint64, round: uint64, epoch: uint32)

  datatype Miniblock = Miniblock(
    hash: Hash, miniblockType: int32, sender: uint32, receiver: uint32, txHashes: seq<Hash>)

  /** Which storage operations fail while one miniblock is recorded. */
  datatype Faults = Faults(hash: bool, epoch: bool, metadata: bool, txs: set<Hash>)

  const NO_FAULTS := Faults(false, false, false, {})

  // ----- recording -----

  /** The metadata a miniblock is first stored with. */
  function Fresh(header: Header, mb: Miniblock): Metadata {
    Metadata(mb.miniblockType, header.epoch, header.hash, mb.hash, header.round, header.nonce,
             mb.sender, mb.receiver, NOWHERE, NOWHERE)
  }

  /** The metadata tells of this block and this miniblock. */
  predicate Describes(m: Metadata, header: Header, mb: Miniblock) {
    && m.headerHash == header.hash && m.headerNonce == header.nonce
    && m.round == header.round && m.epoch == header.epoch
    && m.miniblockHash == mb.hash && m.miniblockType == mb.miniblockType
    && m.sourceShard == mb.sender && m.destinationShard == mb.receiver
  }

  /** As newly stored: with no notarization yet. */
  predicate RecordedAs(m: Metadata, header: Header, mb: Miniblock) {
    && Describes(m, header, mb)
    && m.atSource.metaNonce == 0 && m.atSource.metaHash == []
    && m.atDestination.metaNonce == 0 && m.atDestination.metaHash == []
  }

  /** The transactions of a miniblock pointed at it, except those whose write fails. */
  function IndexTxs(index: map<Hash, Hash>, txHashes: seq<Hash>, mb: Hash, failing: set<Hash>): map<Hash, Hash>
    decreases |txHashes|
  {
    if txHashes == [] then index
    else
      var index' := if txHashes[0] in failing then index else index[txHashes[0] := mb];
      IndexTxs(index', txHashes[1..], mb, failing)
  }

  /**
   recordMiniblock. The deduplication cache drops the keys in evicted when the
   new key is put; ok is false when an error is returned.
   */
  function RecordMiniblock(s: State, header: Header, mb: Miniblock, faults: Faults, evicted: set<Key>): (r: (State, bool)) {
    var key := (mb.hash, header.epoch);
    if faults.hash then (s, false)
    else if key in s.recent then (s, true)
    else if faults.epoch then (s, false)
    else
      var stores := SaveEpoch(s.stores, mb.hash, header.epoch);
      if faults.metadata then (s.(stores := stores), false)
      else
        var stores' := SaveTxs(PutMetadata(stores, mb.hash, Fresh(header, mb)), mb.txHashes, mb.hash, faults.txs);
        (s.(stores := stores', recent := s.recent - evicted + {key}), true)
  }

  function SaveEpoch(st: Stores, hash: Hash, epoch: uint32): Stores {
    st.(epochByHash := st.epochByHash[hash := epoch])
  }

  /** Metadata is stored in the partition of its own epoch. */
  function PutMetadata(st: Stores, hash: Hash, m: Metadata): Stores {
    st.(metadata := st.metadata[(hash, m.epoch) := m])
  }

  /** putHashByRound. */
  function PutRound(st: Stores, header: Header): Stores {
    st.(blockByRound := st.blockByRound[header.round := header.hash])
  }

  function SaveTxs(st: Stores, txHashes: seq<Hash>, mb: Hash, failing: set<Hash>): Stores {
    st.(miniblockByTx := IndexTxs(st.miniblockByTx, txHashes, mb, failing))
  }

  // ----- notifications -----

  datatype Side = AtSource | AtDestination | AtBoth

  datatype MiniblockHeader = MiniblockHeader(hash: Hash, sender: uint32, receiver: uint32, miniblockType: int32)

  datatype ShardData = ShardData(shard: uint32, headers: seq<MiniblockHeader>)

  datatype NotarizedHeader =
    | MetaBlock(nonce: uint64, hash: Hash, shard: uint32, headers: seq<MiniblockHeader>, shardInfo: seq<ShardData>)
    | OtherHeader

  /** A notification to remember for a miniblock. */
  datatype Note = Note(hash: Hash, side: Side, at: Coordinates)

  predicate NotarizedAtBoth(sender: uint32, receiver: uint32) {
    sender == receiver || receiver == METACHAIN
  }

  predicate Concerns(self: uint32, h: MiniblockHeader) {
    (h.sender == self || h.receiver == self) && h.miniblockType != PEER_BLOCK
  }

  /** onNotarizedMiniblock: at most one note. */
  function NotesOf(self: uint32, at: Coordinates, shard: uint32, h: MiniblockHeader): seq<Note> {
    if !Concerns(self, h) then []
    else if NotarizedAtBoth(h.sender, h.receiver) then [Note(h.hash, AtBoth, at)]
    else if h.sender == shard then [Note(h.hash, AtSource, at)]
    else if h.receiver == shard then [Note(h.hash, AtDestination, at)]
    else []
  }

  function NotesOfAll(self: uint32, at: Coordinates, shard: uint32, hs: seq<MiniblockHeader>): seq<Note> {
    if hs == [] then [] else NotesOf(self, at, shard, hs[0]) + NotesOfAll(self, at, shard, hs[1..])
  }

  /** onNotarizedInMetaBlock over the shard blocks of a metablock; the genesis metablock is passed over. */
  function NotesOfShards(self: uint32, at: Coordinates, shards: seq<ShardData>): seq<Note> {
    if shards == [] then []
    else
      (if at.metaNonce < 1 then [] else NotesOfAll(self, at, shards[0].shard, shards[0].headers))
      + NotesOfShards(self, at, shards[1..])
  }

  function NotesOfHeader(self: uint32, header: NotarizedHeader): seq<Note> {
    match header
    case OtherHeader => []
    case MetaBlock(nonce, hash, shard, hs, shardInfo) =>
      var at := Coordinates(nonce, hash);
      NotesOfAll(self, at, shard, hs) + NotesOfShards(self, at, shardInfo)
  }

  function NotesOfHeaders(self: uint32, headers: seq<NotarizedHeader>): seq<Note> {
    if headers == [] then [] else NotesOfHeader(self, headers[0]) + NotesOfHeaders(self, headers[1..])
  }

  function PendingAt(n: Notices, side: Side): Pending {
    match side
    case AtSource => n.atSource
    case AtDestination => n.atDestination
    case AtBoth => n.atBoth
  }

  function WithPending(n: Notices, side: Side, pending: Pending): Notices {
    match side
    case AtSource => n.(atSource := pending)
    case AtDestination => n.(atDestination := pending)
    case AtBoth => n.(atBoth := pending)
  }

  function SetNote(n: Notices, note: Note): Notices {
    WithPending(n, note.side, PendingAt(n, note.side)[note.hash := note.at])
  }

  function SetNotes(n: Notices, notes: seq<Note>): Notices
    decreases |notes|
  {
    if notes == [] then n else SetNotes(SetNote(n, notes[0]), notes[1..])
  }

  // ----- consuming notifications -----

  /** Everything but the notarization coordinates is the same. */
  predicate SameRecord(m: Metadata, m': Metadata) {
    && m'.miniblockType == m.miniblockType && m'.epoch == m.epoch
    && m'.headerHash == m.headerHash && m'.miniblockHash == m.miniblockHash
    && m'.round == m.round && m'.headerNonce == m.headerNonce
    && m'.sourceShard == m.sourceShard && m'.destinationShard == m.destinationShard
  }

  function Patch(side: Side, m: Metadata, at: Coordinates): Metadata {
    match side
    case AtSource => m.(atSource := at)
    case AtDestination => m.(atDestination := at)
    case AtBoth => m.(atSource := at, atDestination := at)
  }

  /** The metadata that lookups by miniblock hash find. */
  predicate Found(st: Stores, hash: Hash) {
    hash in st.epochByHash && (hash, st.epochByHash[hash]) in st.metadata
  }

  /** The stored metadata is filed under its own hash and epoch. */
  predicate Filed(st: Stores) {
    forall key | key in st.metadata :: st.metadata[key].miniblockHash == key.0 && st.metadata[key].epoch == key.1
  }

  /** A pending notification that consumption can deliver; what concerns the hashes in failing cannot be read or written. */
  predicate Deliverable(st: Stores, pending: Pending, failing: set<Hash>, hash: Hash) {
    hash in pending && hash !in failing && Found(st, hash)
  }

  /** The metadata once the notifications for the hashes in done are delivered. */
  function Delivered(st: Stores, pending: Pending, side: Side, failing: set<Hash>, done: set<Hash>): map<Key, Metadata> {
    map key | key in st.metadata ::
      if key.0 in done && Deliverable(st, pending, failing, key.0) && st.epochByHash[key.0] == key.1
      then Patch(side, st.metadata[key], pending[key.0]) else st.metadata[key]
  }

  /** The notifications that still wait then. */
  function StillWaiting(st: Stores, pending: Pending, failing: set<Hash>, done: set<Hash>): Pending {
    map hash | hash in pending && !(hash in done && Deliverable(st, pending, failing, hash)) :: pending[hash]
  }

  /** One pending map consumed: what is found is patched and forgotten, the rest waits. */
  function ConsumeSide(s: State, side: Side, failing: set<Hash>): State {
    var pending := PendingAt(s.notices, side);
    var metadata := Delivered(s.stores, pending, side, failing, pending.Keys);
    var rest := StillWaiting(s.stores, pending, failing, pending.Keys);
    State(s.stores.(metadata := metadata), WithPending(s.notices, side, rest), s.recent)
  }

  /** consumePendingNotificationsWithLock: the three maps in turn. */
  function Consume(s: State, failing: set<Hash>): State {
    ConsumeSide(ConsumeSide(ConsumeSide(s, AtSource, failing), AtDestination, failing), AtBoth, failing)
  }

  /** OnNotarizedBlocks. */
  function OnNotarizedBlocks(s: State, self: uint32, headers: seq<NotarizedHeader>, failing: set<Hash>): State {
    Consume(s.(notices := SetNotes(s.notices, NotesOfHeaders(self, headers))), failing)
  }
}
