/**
 The indexes under interleaving: in every state the machine reaches, an indexed
 transaction leads to its miniblock's metadata, unless that very miniblock is
 being re-recorded and only its new epoch is stored so far.
 */
module HistoryConsistency {
  import opened Bits
  import opened Hashes
  import opened History
  import opened HistoryLaws
  import opened HistoryInterleaving

  /** The recorder has stored a new epoch for this miniblock, and not yet the metadata. */
  predicate BetweenPuts(sys: System, hash: Hash) {
    sys.recorder.EpochSaved? && sys.recorder.mb.hash == hash
  }

  /** Metadata puts succeed, and hashes of miniblocks and of block headers never coincide. */
  ghost predicate Allowed(l: Label, isMiniblock: Hash -> bool) {
    match l
    case Check(_, mb) => isMiniblock(mb.hash)
    case PutFresh(ok) => ok
    case SaveBlockEpoch(h) => !isMiniblock(h.hash)
    case _ => true
  }

  ghost predicate LeadsOrBetween(sys: System, hash: Hash) {
    Leads(sys.s.stores, hash) || BetweenPuts(sys, hash)
  }

  ghost predicate ConsistencyInvariant(sys: System, isMiniblock: Hash -> bool) {
    && Invariant(sys)
    && (forall tx | tx in sys.s.stores.miniblockByTx ::
          isMiniblock(sys.s.stores.miniblockByTx[tx]) && LeadsOrBetween(sys, sys.s.stores.miniblockByTx[tx]))
    && (!sys.recorder.Idle? ==> isMiniblock(sys.recorder.mb.hash))
    && (sys.recorder.EpochSaved? ==>
          var mb, st := sys.recorder.mb, sys.s.stores;
          mb.hash in st.epochByHash && st.epochByHash[mb.hash] == sys.recorder.header.epoch)
    && (sys.recorder.MetadataPut? || sys.recorder.Marked? ==> Leads(sys.s.stores, sys.recorder.mb.hash))
  }

  lemma RecorderKeepsConsistency(sys: System, l: Label, isMiniblock: Hash -> bool)
    requires ConsistencyInvariant(sys, isMiniblock) && RecorderEnabled(sys, l) && Allowed(l, isMiniblock)
    ensures ConsistencyInvariant(RecorderStep(sys, l), isMiniblock)
  {
    RecorderKeepsInvariant(sys, l);
    var index, next := sys.s.stores.miniblockByTx, RecorderStep(sys, l);
    forall tx | tx in next.s.stores.miniblockByTx
      ensures isMiniblock(next.s.stores.miniblockByTx[tx]) && LeadsOrBetween(next, next.s.stores.miniblockByTx[tx])
    {
      assert tx in index ==> LeadsOrBetween(sys, index[tx]);
    }
  }

  lemma ConsumerKeepsConsistency(sys: System, l: Label, isMiniblock: Hash -> bool)
    requires ConsistencyInvariant(sys, isMiniblock) && ConsumerEnabled(sys, l)
    ensures ConsistencyInvariant(ConsumerStep(sys, l), isMiniblock)
  {
    ConsumerKeepsInvariant(sys, l);
  }

  lemma {:induction false} RunKeepsConsistency(self: uint32, sys: System, run: seq<Label>, isMiniblock: Hash -> bool)
    requires ConsistencyInvariant(sys, isMiniblock) && Runs(self, sys, run)
    requires forall l | l in run :: Allowed(l, isMiniblock)
    ensures ConsistencyInvariant(After(self, sys, run), isMiniblock)
    decreases |run|
  {
    if run != [] {
      var l := run[0];
      assert l in run;
      if RecorderEnabled(sys, l) {
        RecorderKeepsConsistency(sys, l, isMiniblock);
      } else if ConsumerEnabled(sys, l) {
        ConsumerKeepsConsistency(sys, l, isMiniblock);
      }
      RunKeepsConsistency(self, Step(self, sys, l), run[1..], isMiniblock);
    }
  }

  /**
   In every reachable state of every interleaving, each indexed transaction leads
   through its miniblock's epoch to that miniblock's metadata, except between the
   two puts of a re-recording of that miniblock.
   */
  lemma ConsistentUnderInterleaving(self: uint32, run: seq<Label>, isMiniblock: Hash -> bool)
    requires Runs(self, START, run) && forall l | l in run :: Allowed(l, isMiniblock)
    ensures var sys := After(self, START, run);
            forall tx | tx in sys.s.stores.miniblockByTx ::
              var hash := sys.s.stores.miniblockByTx[tx]; Leads(sys.s.stores, hash) || BetweenPuts(sys, hash)
  {
    StartInvariant();
    RunKeepsConsistency(self, START, run, isMiniblock);
  }
}
