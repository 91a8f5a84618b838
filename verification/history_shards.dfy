/**
 What shards imply for notarization, in every state the interleaved machine
 reaches: a miniblock that stays in its shard or goes to the metachain is
 notarized at both sides at once, and only miniblocks of the node's own shard
 are ever waited for.
 */
module HistoryShards {
  import opened Bits
  import opened Hashes
  import opened History
  import opened HistoryInterleaving

  /** What a miniblock hash determines. */
  datatype Identity = Identity(sender: uint32, receiver: uint32, miniblockType: int32)

  function HeaderOf(hash: Hash, id: Identity): MiniblockHeader {
    MiniblockHeader(hash, id.sender, id.receiver, id.miniblockType)
  }

  predicate BothAtOnce(id: Identity) {
    NotarizedAtBoth(id.sender, id.receiver)
  }

  /** The labels of a run agree with one assignment of identities to hashes. */
  ghost predicate Agrees(l: Label, ids: Hash -> Identity) {
    match l
    case Check(_, mb) => ids(mb.hash) == Identity(mb.sender, mb.receiver, mb.miniblockType)
    case Notify(_, _, h) => ids(h.hash) == Identity(h.sender, h.receiver, h.miniblockType)
    case _ => true
  }

  /** A miniblock's metadata, with both notarizations equal where they coincide. */
  ghost predicate Coherent(m: Metadata, ids: Hash -> Identity, hash: Hash) {
    && ids(hash) == Identity(m.sourceShard, m.destinationShard, m.miniblockType)
    && (BothAtOnce(ids(hash)) ==> m.atSource == m.atDestination)
  }

  /** A hash may wait in the map of this side. */
  ghost predicate MayWait(self: uint32, ids: Hash -> Identity, side: Side, hash: Hash) {
    Concerns(self, HeaderOf(hash, ids(hash))) && (side == AtBoth <==> BothAtOnce(ids(hash)))
  }

  ghost predicate AllMayWait(self: uint32, ids: Hash -> Identity, n: Notices) {
    && (forall hash | hash in n.atSource :: MayWait(self, ids, AtSource, hash))
    && (forall hash | hash in n.atDestination :: MayWait(self, ids, AtDestination, hash))
    && (forall hash | hash in n.atBoth :: MayWait(self, ids, AtBoth, hash))
  }

  ghost predicate ShardInvariant(self: uint32, ids: Hash -> Identity, sys: System) {
    && Filed(sys.s.stores)
    && (forall key | key in sys.s.stores.metadata :: Coherent(sys.s.stores.metadata[key], ids, key.0))
    && AllMayWait(self, ids, sys.s.notices)
    && (!sys.recorder.Idle? ==>
          var mb := sys.recorder.mb; ids(mb.hash) == Identity(mb.sender, mb.receiver, mb.miniblockType))
    && var c := sys.consumer;
       && (c.Taken? || c.Located? || c.Loaded? ==> MayWait(self, ids, c.side, c.hash))
       && (c.Loaded? ==> Coherent(c.found, ids, c.hash) && c.found.miniblockHash == c.hash)
  }

  lemma RecorderKeepsShards(self: uint32, ids: Hash -> Identity, sys: System, l: Label)
    requires ShardInvariant(self, ids, sys) && RecorderEnabled(sys, l) && Agrees(l, ids)
    ensures ShardInvariant(self, ids, RecorderStep(sys, l))
  {
  }

  lemma ConsumerKeepsShards(self: uint32, ids: Hash -> Identity, sys: System, l: Label)
    requires ShardInvariant(self, ids, sys) && ConsumerEnabled(sys, l)
    ensures ShardInvariant(self, ids, ConsumerStep(sys, l))
  {
  }

  lemma {:induction false} SetNotesMayWait(self: uint32, ids: Hash -> Identity, n: Notices, notes: seq<Note>)
    requires AllMayWait(self, ids, n)
    requires forall note | note in notes :: MayWait(self, ids, note.side, note.hash)
    ensures AllMayWait(self, ids, SetNotes(n, notes))
    decreases |notes|
  {
    if notes != [] {
      assert notes[0] in notes;
      SetNotesMayWait(self, ids, SetNote(n, notes[0]), notes[1..]);
    }
  }

  lemma StepKeepsShards(self: uint32, ids: Hash -> Identity, sys: System, l: Label)
    requires ShardInvariant(self, ids, sys) && Enabled(sys, l) && Agrees(l, ids)
    ensures ShardInvariant(self, ids, Step(self, sys, l))
  {
    if RecorderEnabled(sys, l) {
      RecorderKeepsShards(self, ids, sys, l);
    } else if ConsumerEnabled(sys, l) {
      ConsumerKeepsShards(self, ids, sys, l);
    } else if l.Notify? {
      SetNotesMayWait(self, ids, sys.s.notices, NotesOf(self, l.at, l.shard, l.notified));
    }
  }

  lemma {:induction false} RunKeepsShards(self: uint32, ids: Hash -> Identity, sys: System, run: seq<Label>)
    requires ShardInvariant(self, ids, sys) && Runs(self, sys, run)
    requires forall l | l in run :: Agrees(l, ids)
    ensures ShardInvariant(self, ids, After(self, sys, run))
    decreases |run|
  {
    if run != [] {
      assert run[0] in run;
      StepKeepsShards(self, ids, sys, run[0]);
      RunKeepsShards(self, ids, Step(self, sys, run[0]), run[1..]);
    }
  }

  /**
   In every reachable state, metadata of a miniblock within one shard or to the
   metachain has the same coordinates at both sides, and no pending map holds a
   peer miniblock or one that neither starts nor ends in the node's shard.
   */
  lemma BothSidesAlways(self: uint32, ids: Hash -> Identity, run: seq<Label>)
    requires Runs(self, START, run) && forall l | l in run :: Agrees(l, ids)
    ensures var s := After(self, START, run).s;
            && (forall key | key in s.stores.metadata ::
                  var m := s.stores.metadata[key];
                  m.sourceShard == m.destinationShard || m.destinationShard == METACHAIN ==> m.atSource == m.atDestination)
            && (forall side: Side, hash | hash in PendingAt(s.notices, side) ::
                  && (ids(hash).sender == self || ids(hash).receiver == self)
                  && ids(hash).miniblockType != PEER_BLOCK)
  {
    RunKeepsShards(self, ids, START, run);
    var s := After(self, START, run).s;
    forall key | key in s.stores.metadata
      ensures var m := s.stores.metadata[key];
              m.sourceShard == m.destinationShard || m.destinationShard == METACHAIN ==> m.atSource == m.atDestination
    {
      assert Coherent(s.stores.metadata[key], ids, key.0);
    }
    forall side: Side, hash | hash in PendingAt(s.notices, side)
      ensures (ids(hash).sender == self || ids(hash).receiver == self) && ids(hash).miniblockType != PEER_BLOCK
    {
      assert MayWait(self, ids, side, hash);
    }
  }
}
