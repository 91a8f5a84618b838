/**
 What a recorded block leaves in the stores: its header, its miniblocks without
 the peer ones, those created here, and its round.
 */
module HistoryBlocks {
  import opened Bits
  import opened Hashes
  import opened History
  import opened HistoryLaws
  import opened HistoryMeaning
  import opened HistoryRepository

  /** The miniblocks of a block that are to be recorded. */
  predicate Recordable(body: seq<Job>, created: seq<Job>, job: Job) {
    (job in body && job.mb.miniblockType != PEER_BLOCK) || job in created
  }

  /** A hash stands for one miniblock. */
  predicate OneMeaning(jobs: seq<Job>) {
    forall j, k | j in jobs && k in jobs && j.mb.hash == k.mb.hash :: j.mb == k.mb
  }

  /** Nothing that would end the recording of this miniblock fails. */
  predicate Works(j: Job) {
    !j.faults.hash && !j.faults.epoch && !j.faults.metadata
  }

  /** The write of this transaction does not fail for any miniblock of this hash. */
  predicate Spared(jobs: set<Job>, hash: Hash, tx: Hash) {
    forall j | j in jobs && j.mb.hash == hash :: tx !in j.faults.txs
  }

  /** Lookups by this miniblock's hash lead to metadata that tells of this block and miniblock. */
  predicate StoredAs(st: Stores, header: Header, mb: Miniblock) {
    && mb.hash in st.epochByHash && st.epochByHash[mb.hash] == header.epoch
    && (mb.hash, header.epoch) in st.metadata && RecordedAs(st.metadata[(mb.hash, header.epoch)], header, mb)
  }

  /** A transaction leads to one of the miniblocks that have it. */
  ghost predicate LeadsIntoBlock(st: Stores, jobs: set<Job>, tx: Hash) {
    tx in st.miniblockByTx && exists j :: j in jobs && tx in j.mb.txHashes && st.miniblockByTx[tx] == j.mb.hash
  }

  /** A miniblock whose recording works and whose key was not remembered before the block. */
  predicate IsNew(s: State, header: Header, j: Job) {
    Works(j) && (j.mb.hash, header.epoch) !in s.recent
  }

  /** The state r after a set of miniblocks was recorded from state s. */
  ghost predicate Recorded(s: State, r: State, header: Header, jobs: set<Job>) {
    && (forall key | key in r.recent && key !in s.recent ::
          exists j :: j in jobs && Works(j) && (j.mb.hash, header.epoch) == key)
    && (forall j | j in jobs && IsNew(s, header, j) :: StoredAs(r.stores, header, j.mb))
    && (forall j, tx | j in jobs && IsNew(s, header, j) && tx in j.mb.txHashes && Spared(jobs, j.mb.hash, tx) ::
          LeadsIntoBlock(r.stores, jobs, tx))
    && OthersKept(s, r, header, jobs)
  }

  /** What no recorded miniblock concerns is as it was. */
  ghost predicate OthersKept(s: State, r: State, header: Header, jobs: set<Job>) {
    && r.notices == s.notices && r.stores.blockByRound == s.stores.blockByRound
    && (forall hash | hash in s.stores.epochByHash ::
          hash in r.stores.epochByHash
          && (r.stores.epochByHash[hash] == s.stores.epochByHash[hash] || r.stores.epochByHash[hash] == header.epoch))
    && (forall hash | (forall j | j in jobs :: j.mb.hash != hash) ::
          (hash in r.stores.epochByHash <==> hash in s.stores.epochByHash)
          && (hash in s.stores.epochByHash ==> r.stores.epochByHash[hash] == s.stores.epochByHash[hash]))
    && (forall key: Key | (forall j | j in jobs :: (j.mb.hash, header.epoch) != key) ::
          (key in r.stores.metadata <==> key in s.stores.metadata)
          && (key in s.stores.metadata ==> r.stores.metadata[key] == s.stores.metadata[key]))
    && (forall tx | (forall j | j in jobs :: tx !in j.mb.txHashes) ::
          (tx in r.stores.miniblockByTx <==> tx in s.stores.miniblockByTx)
          && (tx in s.stores.miniblockByTx ==> r.stores.miniblockByTx[tx] == s.stores.miniblockByTx[tx]))
  }

  // ----- one miniblock more -----

  /** A miniblock that was remembered meanwhile has the hash, and so the contents, of one recorded before. */
  lemma RecordRemembered(s: State, r: State, header: Header, done: set<Job>, job: Job)
    requires Recorded(s, r, header, done) && (job.mb.hash, header.epoch) in r.recent
    requires forall j | j in done && j.mb.hash == job.mb.hash :: j.mb == job.mb
    ensures Recorded(s, r, header, done + {job})
  {
    var all := done + {job};
    forall key | key in r.recent && key !in s.recent
      ensures exists j :: j in all && Works(j) && (j.mb.hash, header.epoch) == key
    {
      var j :| j in done && Works(j) && (j.mb.hash, header.epoch) == key;
      assert j in all;
    }
    forall j | j in all && IsNew(s, header, j) ensures StoredAs(r.stores, header, j.mb) {
      var twin := Twin(s, r, header, done, job, j);
    }
    forall j, tx | j in all && IsNew(s, header, j) && tx in j.mb.txHashes && Spared(all, j.mb.hash, tx)
      ensures LeadsIntoBlock(r.stores, all, tx)
    {
      var twin := Twin(s, r, header, done, job, j);
      assert Spared(done, twin.mb.hash, tx);
      StillLeads(r.stores, done, job, tx);
    }
  }

  lemma Twin(s: State, r: State, header: Header, done: set<Job>, job: Job, j: Job) returns (twin: Job)
    requires Recorded(s, r, header, done) && (job.mb.hash, header.epoch) in r.recent
    requires forall j | j in done && j.mb.hash == job.mb.hash :: j.mb == job.mb
    requires j in done + {job} && IsNew(s, header, j)
    ensures twin in done && IsNew(s, header, twin) && twin.mb == j.mb && StoredAs(r.stores, header, j.mb)
  {
    twin := j;
    if j !in done {
      twin :| twin in done && Works(twin) && (twin.mb.hash, header.epoch) == (job.mb.hash, header.epoch);
    }
    assert StoredAs(r.stores, header, twin.mb);
  }

  lemma StillLeads(st: Stores, done: set<Job>, job: Job, tx: Hash)
    requires LeadsIntoBlock(st, done, tx)
    ensures LeadsIntoBlock(st, done + {job}, tx)
  {
    var k :| k in done && tx in k.mb.txHashes && st.miniblockByTx[tx] == k.mb.hash;
    assert k in done + {job};
  }

  /** A miniblock whose recording fails stores its epoch at most. */
  lemma RecordFailing(s: State, r: State, header: Header, done: set<Job>, job: Job)
    requires Recorded(s, r, header, done) && (job.mb.hash, header.epoch) !in r.recent && !Works(job)
    requires forall j | j in done && j.mb.hash == job.mb.hash :: j.mb == job.mb
    ensures Recorded(s, RecordMiniblock(r, header, job.mb, job.faults, job.evicted).0, header, done + {job})
  {
    var all, next := done + {job}, RecordMiniblock(r, header, job.mb, job.faults, job.evicted).0;
    RecordMeans(r, header, job.mb, job.faults, job.evicted);
    forall key | key in next.recent && key !in s.recent
      ensures exists j :: j in all && Works(j) && (j.mb.hash, header.epoch) == key
    {
      var j :| j in done && Works(j) && (j.mb.hash, header.epoch) == key;
      assert j in all;
    }
    forall j | j in all && IsNew(s, header, j) ensures StoredAs(next.stores, header, j.mb) {
      assert StoredAs(r.stores, header, j.mb);
    }
    forall j, tx | j in all && IsNew(s, header, j) && tx in j.mb.txHashes && Spared(all, j.mb.hash, tx)
      ensures LeadsIntoBlock(next.stores, all, tx)
    {
      assert Spared(done, j.mb.hash, tx);
      StillLeads(r.stores, done, job, tx);
    }
    RecordKeepsOthers(s, r, next, header, done, job);
  }

  /** A miniblock that is stored. */
  lemma RecordNew(s: State, r: State, header: Header, done: set<Job>, job: Job)
    requires Recorded(s, r, header, done) && (job.mb.hash, header.epoch) !in r.recent && Works(job)
    requires forall j | j in done && j.mb.hash == job.mb.hash :: j.mb == job.mb
    ensures Recorded(s, RecordMiniblock(r, header, job.mb, job.faults, job.evicted).0, header, done + {job})
  {
    var all, next := done + {job}, RecordMiniblock(r, header, job.mb, job.faults, job.evicted).0;
    RecordMeans(r, header, job.mb, job.faults, job.evicted);
    forall key | key in next.recent && key !in s.recent
      ensures exists j :: j in all && Works(j) && (j.mb.hash, header.epoch) == key
    {
      if key != (job.mb.hash, header.epoch) {
        var j :| j in done && Works(j) && (j.mb.hash, header.epoch) == key;
        assert j in all;
      } else {
        assert job in all;
      }
    }
    forall j | j in all && IsNew(s, header, j) ensures StoredAs(next.stores, header, j.mb) {
      if j.mb.hash == job.mb.hash {
        assert j.mb == job.mb;
      } else {
        assert StoredAs(r.stores, header, j.mb);
      }
    }
    forall j, tx | j in all && IsNew(s, header, j) && tx in j.mb.txHashes && Spared(all, j.mb.hash, tx)
      ensures LeadsIntoBlock(next.stores, all, tx)
    {
      NewLeads(s, r, next, header, done, job, j, tx);
    }
    RecordKeepsOthers(s, r, next, header, done, job);
  }

  lemma NewLeads(s: State, r: State, next: State, header: Header, done: set<Job>, job: Job, j: Job, tx: Hash)
    requires Recorded(s, r, header, done) && (job.mb.hash, header.epoch) !in r.recent && Works(job)
    requires next == RecordMiniblock(r, header, job.mb, job.faults, job.evicted).0
    requires j in done + {job} && IsNew(s, header, j) && tx in j.mb.txHashes && Spared(done + {job}, j.mb.hash, tx)
    ensures LeadsIntoBlock(next.stores, done + {job}, tx)
  {
    RecordMeans(r, header, job.mb, job.faults, job.evicted);
    assert job in done + {job};
    if !(tx in job.mb.txHashes && tx !in job.faults.txs) {
      assert j in done && Spared(done, j.mb.hash, tx) && LeadsIntoBlock(r.stores, done, tx);
      var k :| k in done && tx in k.mb.txHashes && r.stores.miniblockByTx[tx] == k.mb.hash;
      assert k in done + {job};
    }
  }

  lemma RecordKeepsOthers(s: State, r: State, next: State, header: Header, done: set<Job>, job: Job)
    requires OthersKept(s, r, header, done)
    requires next == RecordMiniblock(r, header, job.mb, job.faults, job.evicted).0
    ensures OthersKept(s, next, header, done + {job})
  {
    var all := done + {job};
    assert job in all && forall j | j in done :: j in all;
    RecordMeans(r, header, job.mb, job.faults, job.evicted);
  }

  lemma {:induction false} RecordsStore(self: uint32, s: State, r: State, header: Header, done: set<Job>, jobs: seq<Job>)
    requires Recorded(s, r, header, done) && OneMeaning(jobs)
    requires forall j, k | j in done && k in jobs && j.mb.hash == k.mb.hash :: j.mb == k.mb
    ensures Recorded(s, Run(self, r, Records(header, jobs)), header, done + set j | j in jobs)
    decreases |jobs|
  {
    if jobs == [] {
      assert done + (set j | j in jobs) == done;
    } else {
      var job, next := jobs[0], Apply(self, r, Record(header, jobs[0].mb, jobs[0].faults, jobs[0].evicted));
      assert job in jobs;
      if (job.mb.hash, header.epoch) in r.recent {
        RecordRemembered(s, r, header, done, job);
        RecordMeans(r, header, job.mb, job.faults, job.evicted);
      } else if Works(job) {
        RecordNew(s, r, header, done, job);
      } else {
        RecordFailing(s, r, header, done, job);
      }
      RecordsStore(self, s, next, header, done + {job}, jobs[1..]);
      assert done + {job} + (set j | j in jobs[1..]) == done + set j | j in jobs;
      assert Records(header, jobs)[1..] == Records(header, jobs[1..]);
    }
  }

  // ----- the block -----

  /** A body without its peer miniblocks. */
  function WithoutPeers(jobs: seq<Job>): (kept: seq<Job>)
    ensures forall j :: j in kept <==> j in jobs && j.mb.miniblockType != PEER_BLOCK
  {
    if jobs == [] then []
    else (if jobs[0].mb.miniblockType == PEER_BLOCK then [] else [jobs[0]]) + WithoutPeers(jobs[1..])
  }

  lemma {:induction false} BlockRecords(header: Header, body: seq<Job>, created: seq<Job>)
    ensures BodyRecords(header, body) + Records(header, created) == Records(header, WithoutPeers(body) + created)
    decreases |body|
  {
    if body == [] {
      assert WithoutPeers(body) + created == created;
      assert [] + Records(header, created) == Records(header, created);
    } else {
      var rest, tail := BodyRecords(header, body[1..]), Records(header, created);
      BlockRecords(header, body[1..], created);
      FirstOfBody(header, body);
      if body[0].mb.miniblockType != PEER_BLOCK {
        var kept := WithoutPeers(body[1..]);
        KeptFirst(header, body[0], kept + created, rest, tail);
        assert ([body[0]] + kept) + created == [body[0]] + (kept + created);
      }
    }
  }

  lemma FirstOfBody(header: Header, body: seq<Job>)
    requires body != []
    ensures var rest, kept := BodyRecords(header, body[1..]), WithoutPeers(body[1..]);
            if body[0].mb.miniblockType == PEER_BLOCK then
              BodyRecords(header, body) == rest && WithoutPeers(body) == kept
            else
              && BodyRecords(header, body) == [Record(header, body[0].mb, body[0].faults, body[0].evicted)] + rest
              && WithoutPeers(body) == [body[0]] + kept
  {
  }

  lemma KeptFirst(header: Header, job: Job, kept: seq<Job>, rest: seq<Event>, tail: seq<Event>)
    requires rest + tail == Records(header, kept)
    ensures var e := Record(header, job.mb, job.faults, job.evicted); ([e] + rest) + tail == Records(header, [job] + kept)
  {
    var e := Record(header, job.mb, job.faults, job.evicted);
    assert ([job] + kept)[1..] == kept;
    assert ([e] + rest) + tail == [e] + (rest + tail);
  }

  /** What a block leaves; single miniblocks and transactions may fail. */
  ghost predicate BlockStored(s: State, r: State, header: Header, body: seq<Job>, created: seq<Job>) {
    && header.hash in r.stores.epochByHash && r.stores.epochByHash[header.hash] == header.epoch
    && r.stores.blockByRound == s.stores.blockByRound[header.round := header.hash] && r.notices == s.notices
    && (forall j | Recordable(body, created, j) && IsNew(s, header, j) ::
          StoredAs(r.stores, header, j.mb)
          && forall tx | tx in j.mb.txHashes
               && (forall k | Recordable(body, created, k) && k.mb.hash == j.mb.hash :: tx !in k.faults.txs) ::
               tx in r.stores.miniblockByTx
               && exists k :: Recordable(body, created, k) && tx in k.mb.txHashes && r.stores.miniblockByTx[tx] == k.mb.hash)
    && (forall hash | hash != header.hash && (forall j | Recordable(body, created, j) :: j.mb.hash != hash) ::
          (hash in r.stores.epochByHash <==> hash in s.stores.epochByHash)
          && (hash in s.stores.epochByHash ==> r.stores.epochByHash[hash] == s.stores.epochByHash[hash]))
    && (forall key: Key | (forall j | Recordable(body, created, j) :: (j.mb.hash, header.epoch) != key) ::
          (key in r.stores.metadata <==> key in s.stores.metadata)
          && (key in s.stores.metadata ==> r.stores.metadata[key] == s.stores.metadata[key]))
    && (forall tx | (forall j | Recordable(body, created, j) :: tx !in j.mb.txHashes) ::
          (tx in r.stores.miniblockByTx <==> tx in s.stores.miniblockByTx)
          && (tx in s.stores.miniblockByTx ==> r.stores.miniblockByTx[tx] == s.stores.miniblockByTx[tx]))
  }

  /**
   RecordBlock when its own steps succeed: the header's hash leads to its epoch and
   its round to its hash; every miniblock of the body but peer ones, and every one
   created here, is stored unless its own recording fails or its key was remembered,
   and its transactions, unless their writes fail, lead into the block; everything
   else is as it was.
   */
  lemma BlockMeans(self: uint32, s: State, header: Header, body: seq<Job>, created: seq<Job>)
    requires OneMeaning(body + created)
    ensures BlockStored(s, Run(self, s, BlockEvents(header, body, created) + [SaveRound(header)]), header, body, created)
  {
    var kept := WithoutPeers(body) + created;
    var jobs := set j | j in kept;
    var s1 := Apply(self, s, SaveHeader(header));
    var r := Run(self, s1, Records(header, kept));
    forall j | j in kept ensures j in body + created {
    }
    RecordsStore(self, s1, s1, header, {}, kept);
    assert {} + jobs == jobs;
    RunsAsRecords(self, s, header, body, created);
    forall j ensures j in jobs <==> Recordable(body, created, j) {
    }
    SavedRound(s, s1, r, header, body, created, jobs);
  }

  lemma RunsAsRecords(self: uint32, s: State, header: Header, body: seq<Job>, created: seq<Job>)
    ensures var s1 := Apply(self, s, SaveHeader(header));
            Run(self, s, BlockEvents(header, body, created) + [SaveRound(header)])
            == Apply(self, Run(self, s1, Records(header, WithoutPeers(body) + created)), SaveRound(header))
  {
    var records := BodyRecords(header, body) + Records(header, created);
    var s1 := Apply(self, s, SaveHeader(header));
    BlockRecords(header, body, created);
    RunConcat(self, s, [SaveHeader(header)] + records, [SaveRound(header)]);
    RunConcat(self, s, [SaveHeader(header)], records);
    RunOne(self, s, SaveHeader(header));
    RunOne(self, Run(self, s1, records), SaveRound(header));
  }

  lemma SavedRound(s: State, s1: State, r: State, header: Header, body: seq<Job>, created: seq<Job>, jobs: set<Job>)
    requires s1 == s.(stores := SaveEpoch(s.stores, header.hash, header.epoch)) && Recorded(s1, r, header, jobs)
    requires forall j :: j in jobs <==> Recordable(body, created, j)
    ensures BlockStored(s, r.(stores := PutRound(r.stores, header)), header, body, created)
  {
    var end := r.(stores := PutRound(r.stores, header));
    forall j | Recordable(body, created, j) && IsNew(s, header, j)
      ensures StoredAs(end.stores, header, j.mb)
    {
      assert StoredAs(r.stores, header, j.mb);
    }
    forall j, tx | Recordable(body, created, j) && IsNew(s, header, j) && tx in j.mb.txHashes
                   && forall k | Recordable(body, created, k) && k.mb.hash == j.mb.hash :: tx !in k.faults.txs
      ensures tx in end.stores.miniblockByTx
      ensures exists k :: Recordable(body, created, k) && tx in k.mb.txHashes && end.stores.miniblockByTx[tx] == k.mb.hash
    {
      assert Spared(jobs, j.mb.hash, tx) && LeadsIntoBlock(r.stores, jobs, tx);
      var k :| k in jobs && tx in k.mb.txHashes && r.stores.miniblockByTx[tx] == k.mb.hash;
      assert Recordable(body, created, k);
    }
  }

  /** A peer miniblock of the body changes nothing, whatever else fails. */
  lemma PeersPassedOver(header: Header, a: seq<Job>, peer: Job, b: seq<Job>, created: seq<Job>)
    requires peer.mb.miniblockType == PEER_BLOCK
    ensures BlockEvents(header, a + ([peer] + b), created) == BlockEvents(header, a + b, created)
  {
    BodyRecordsConcat(header, a, [peer] + b);
    BodyRecordsConcat(header, a, b);
    assert ([peer] + b)[1..] == b;
    FirstOfBody(header, [peer] + b);
  }

  lemma {:induction false} BodyRecordsConcat(header: Header, a: seq<Job>, b: seq<Job>)
    ensures BodyRecords(header, a + b) == BodyRecords(header, a) + BodyRecords(header, b)
    decreases |a|
  {
    if a == [] {
      assert a + b == b;
    } else {
      assert (a + b)[1..] == a[1..] + b;
      FirstOfBody(header, a + b);
      FirstOfBody(header, a);
      BodyRecordsConcat(header, a[1..], b);
    }
  }
}
