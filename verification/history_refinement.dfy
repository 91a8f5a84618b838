/**
 The operations of the repository, taken as one event each, are runs of the
 interleaved machine in which nothing else happens.
 */
module HistoryRefinement {
  import opened Bits
  import opened Hashes
  import opened History
  import opened HistoryLaws
  import opened HistoryInterleaving

  lemma RunsCons(self: uint32, sys: System, l: Label, rest: seq<Label>)
    requires Enabled(sys, l) && Runs(self, Step(self, sys, l), rest)
    ensures Runs(self, sys, [l] + rest) && After(self, sys, [l] + rest) == After(self, Step(self, sys, l), rest)
  {
    assert ([l] + rest)[1..] == rest;
  }

  lemma {:induction false} RunsConcat(self: uint32, sys: System, a: seq<Label>, b: seq<Label>)
    requires Runs(self, sys, a) && Runs(self, After(self, sys, a), b)
    ensures Runs(self, sys, a + b) && After(self, sys, a + b) == After(self, After(self, sys, a), b)
    decreases |a|
  {
    if a == [] {
      assert a + b == b;
    } else {
      assert (a + b)[1..] == a[1..] + b;
      RunsConcat(self, Step(self, sys, a[0]), a[1..], b);
    }
  }

  // ----- recording -----

  function TxLabels(txHashes: seq<Hash>, failing: set<Hash>): seq<Label> {
    if txHashes == [] then [] else [PutTx(txHashes[0] !in failing)] + TxLabels(txHashes[1..], failing)
  }

  /** The labels of one undisturbed recording. */
  function RecordingRun(s: State, header: Header, mb: Miniblock, faults: Faults, evicted: set<Key>): seq<Label> {
    if faults.hash then []
    else if KeyOf(header, mb) in s.recent then [Check(header, mb)]
    else if faults.epoch then [Check(header, mb), SaveMiniblockEpoch(false)]
    else if faults.metadata then [Check(header, mb), SaveMiniblockEpoch(true), PutFresh(false)]
    else [Check(header, mb), SaveMiniblockEpoch(true), PutFresh(true), Mark(evicted)] + TxLabels(mb.txHashes, faults.txs)
  }

  /** Writing the remaining transactions. */
  lemma {:induction false} TxRun(self: uint32, sys: System, txHashes: seq<Hash>, failing: set<Hash>)
    requires sys.recorder.Marked? && sys.recorder.next < |sys.recorder.mb.txHashes|
    requires txHashes == sys.recorder.mb.txHashes[sys.recorder.next..]
    ensures var run := TxLabels(txHashes, failing);
            && Runs(self, sys, run)
            && After(self, sys, run) ==
               Stored(sys, SaveTxs(sys.s.stores, txHashes, sys.recorder.mb.hash, failing)).(recorder := Idle)
    decreases |txHashes|
  {
    var r, l, rest := sys.recorder, PutTx(txHashes[0] !in failing), txHashes[1..];
    var next := Step(self, sys, l);
    assert txHashes[0] == r.mb.txHashes[r.next];
    assert Stored(sys, SaveTxs(sys.s.stores, txHashes, r.mb.hash, failing)).(recorder := Idle)
        == Stored(next, SaveTxs(next.s.stores, rest, r.mb.hash, failing)).(recorder := Idle);
    if rest != [] {
      assert rest == r.mb.txHashes[r.next + 1..];
      TxRun(self, next, rest, failing);
    } else {
      assert TxLabels(rest, failing) == [];
    }
    RunsCons(self, sys, l, TxLabels(rest, failing));
  }

  /** A recording that stops before anything is remembered. */
  lemma StoppedRefines(self: uint32, sys: System, header: Header, mb: Miniblock, faults: Faults, evicted: set<Key>)
    requires sys.recorder.Idle?
    requires faults.hash || KeyOf(header, mb) in sys.s.recent || faults.epoch || faults.metadata
    ensures var run := RecordingRun(sys.s, header, mb, faults, evicted);
            && Runs(self, sys, run)
            && After(self, sys, run) == sys.(s := RecordMiniblock(sys.s, header, mb, faults, evicted).0)
  {
    if !faults.hash {
      var s1 := Step(self, sys, Check(header, mb));
      if KeyOf(header, mb) in sys.s.recent {
        RunsCons(self, sys, Check(header, mb), []);
      } else {
        var l := SaveMiniblockEpoch(!faults.epoch);
        var s2 := Step(self, s1, l);
        if faults.epoch {
          RunsCons(self, s1, l, []);
          RunsCons(self, sys, Check(header, mb), [l]);
        } else {
          assert Runs(self, Step(self, s2, PutFresh(false)), []);
          RunsCons(self, s2, PutFresh(false), []);
          RunsCons(self, s1, l, [PutFresh(false)]);
          RunsCons(self, sys, Check(header, mb), [l, PutFresh(false)]);
        }
      }
    }
  }

  /** A recording that stores and remembers its metadata. */
  lemma CompletedRefines(self: uint32, sys: System, header: Header, mb: Miniblock, faults: Faults, evicted: set<Key>)
    requires sys.recorder.Idle?
    requires !(faults.hash || KeyOf(header, mb) in sys.s.recent || faults.epoch || faults.metadata)
    ensures var run := RecordingRun(sys.s, header, mb, faults, evicted);
            && Runs(self, sys, run)
            && After(self, sys, run) == sys.(s := RecordMiniblock(sys.s, header, mb, faults, evicted).0)
  {
    var txs := TxLabels(mb.txHashes, faults.txs);
    var s1 := Step(self, sys, Check(header, mb));
    var s2 := Step(self, s1, SaveMiniblockEpoch(true));
    var s3 := Step(self, s2, PutFresh(true));
    var s4 := Step(self, s3, Mark(evicted));
    if mb.txHashes != [] {
      assert mb.txHashes[0..] == mb.txHashes;
      TxRun(self, s4, mb.txHashes, faults.txs);
    }
    RunsCons(self, s3, Mark(evicted), txs);
    RunsCons(self, s2, PutFresh(true), [Mark(evicted)] + txs);
    RunsCons(self, s1, SaveMiniblockEpoch(true), [PutFresh(true)] + ([Mark(evicted)] + txs));
    RunsCons(self, sys, Check(header, mb), [SaveMiniblockEpoch(true)] + ([PutFresh(true)] + ([Mark(evicted)] + txs)));
    assert RecordingRun(sys.s, header, mb, faults, evicted)
        == [Check(header, mb)] + ([SaveMiniblockEpoch(true)] + ([PutFresh(true)] + ([Mark(evicted)] + txs)));
  }

  /** An undisturbed recording, whatever fails in it, is RecordMiniblock. */
  lemma RecordingRefines(self: uint32, sys: System, header: Header, mb: Miniblock, faults: Faults, evicted: set<Key>)
    requires sys.recorder.Idle?
    ensures var run := RecordingRun(sys.s, header, mb, faults, evicted);
            && Runs(self, sys, run)
            && After(self, sys, run) == sys.(s := RecordMiniblock(sys.s, header, mb, faults, evicted).0)
  {
    if faults.hash || KeyOf(header, mb) in sys.s.recent || faults.epoch || faults.metadata {
      StoppedRefines(self, sys, header, mb, faults, evicted);
    } else {
      CompletedRefines(self, sys, header, mb, faults, evicted);
    }
  }

  /**
   Recording a miniblock again, undisturbed, keeps the coordinates stored for it
   exactly when its key is still remembered or the recording fails before its put.
   */
  lemma RerecordKeepsIff(self: uint32, sys: System, header: Header, mb: Miniblock, faults: Faults, evicted: set<Key>)
    requires sys.recorder.Idle? && KeyOf(header, mb) in sys.s.stores.metadata
    requires !WithoutCoordinates(sys.s.stores.metadata[KeyOf(header, mb)])
    ensures var run := RecordingRun(sys.s, header, mb, faults, evicted); var key := KeyOf(header, mb);
            && Runs(self, sys, run)
            && var end := After(self, sys, run).s.stores;
               && key in end.metadata
               && (end.metadata[key] == sys.s.stores.metadata[key] <==>
                     key in sys.s.recent || faults.hash || faults.epoch || faults.metadata)
  {
    RecordingRefines(self, sys, header, mb, faults, evicted);
    RecordKeepsEntryIff(sys.s, header, mb, faults, evicted);
  }

  // ----- consuming -----

  /** What the consumer does for one pending hash. */
  function HashRun(st: Stores, failing: set<Hash>, hash: Hash): seq<Label> {
    if hash in failing then [Take(hash), Locate(false)]
    else if hash !in st.epochByHash then [Take(hash), Locate(true)]
    else if !Found(st, hash) then [Take(hash), Locate(true), Load(true)]
    else [Take(hash), Locate(true), Load(true), PutPatched(true), Forget]
  }

  function HashesRun(st: Stores, failing: set<Hash>, order: seq<Hash>): seq<Label> {
    if order == [] then [] else HashRun(st, failing, order[0]) + HashesRun(st, failing, order[1..])
  }

  /** One pass over a pending map, its hashes in the given order. */
  function SideRun(st: Stores, side: Side, failing: set<Hash>, order: seq<Hash>): seq<Label> {
    [Open(side)] + HashesRun(st, failing, order)
  }

  /** The machine in the middle of a pass over the map of one side of s: done is finished, keys is to come. */
  function Midway(sys: System, s: State, side: Side, failing: set<Hash>, done: set<Hash>, keys: set<Hash>): System {
    var pending := PendingAt(s.notices, side);
    sys.(s := State(s.stores.(metadata := Delivered(s.stores, pending, side, failing, done)),
                    WithPending(s.notices, side, StillWaiting(s.stores, pending, failing, done)), s.recent),
         consumer := Draining(side, keys))
  }

  /** One pending hash that is found: its metadata is patched, its notification forgotten. */
  lemma HashDelivered(self: uint32, sys: System, side: Side, keys: set<Hash>, hash: Hash)
    requires sys.consumer == Draining(side, keys) && hash in keys && hash in PendingAt(sys.s.notices, side)
    requires Found(sys.s.stores, hash)
    ensures var st, pending := sys.s.stores, PendingAt(sys.s.notices, side);
            var run := [Take(hash), Locate(true), Load(true), PutPatched(true), Forget];
            && Runs(self, sys, run)
            && After(self, sys, run) ==
               sys.(s := State(PutMetadata(st, hash, Patch(side, st.metadata[(hash, st.epochByHash[hash])], pending[hash])),
                               WithPending(sys.s.notices, side, pending - {hash}), sys.s.recent),
                    consumer := Draining(side, keys - {hash}))
  {
    var s1 := Step(self, sys, Take(hash));
    var s2 := Step(self, s1, Locate(true));
    var s3 := Step(self, s2, Load(true));
    var s4 := Step(self, s3, PutPatched(true));
    assert Runs(self, Step(self, s4, Forget), []);
    RunsCons(self, s4, Forget, []);
    RunsCons(self, s3, PutPatched(true), [Forget]);
    RunsCons(self, s2, Load(true), [PutPatched(true), Forget]);
    RunsCons(self, s1, Locate(true), [Load(true), PutPatched(true), Forget]);
    RunsCons(self, sys, Take(hash), [Locate(true), Load(true), PutPatched(true), Forget]);
  }

  /** One pending hash that cannot be delivered: it stays pending. */
  lemma HashKept(self: uint32, sys: System, side: Side, failing: set<Hash>, keys: set<Hash>, hash: Hash)
    requires sys.consumer == Draining(side, keys) && hash in keys && hash in PendingAt(sys.s.notices, side)
    requires hash in failing || !Found(sys.s.stores, hash)
    ensures var run := HashRun(sys.s.stores, failing, hash);
            Runs(self, sys, run) && After(self, sys, run) == sys.(consumer := Draining(side, keys - {hash}))
  {
    var s1, ok := Step(self, sys, Take(hash)), hash !in failing;
    var s2 := Step(self, s1, Locate(ok));
    assert Runs(self, s2, []);
    if !ok || hash !in sys.s.stores.epochByHash {
      RunsCons(self, s1, Locate(ok), []);
      RunsCons(self, sys, Take(hash), [Locate(ok)]);
    } else {
      assert Runs(self, Step(self, s2, Load(true)), []);
      RunsCons(self, s2, Load(true), []);
      RunsCons(self, s1, Locate(true), [Load(true)]);
      RunsCons(self, sys, Take(hash), [Locate(true), Load(true)]);
    }
  }

  lemma OneHash(self: uint32, sys: System, s: State, side: Side, failing: set<Hash>, done: set<Hash>, keys: set<Hash>, hash: Hash)
    requires Filed(s.stores) && hash in keys && hash in PendingAt(s.notices, side) && hash !in done
    ensures var from := Midway(sys, s, side, failing, done, keys); var run := HashRun(s.stores, failing, hash);
            Runs(self, from, run) && After(self, from, run) == Midway(sys, s, side, failing, done + {hash}, keys - {hash})
  {
    var from := Midway(sys, s, side, failing, done, keys);
    var pending := PendingAt(s.notices, side);
    DeliverOne(s.stores, pending, side, failing, done, hash);
    if Deliverable(s.stores, pending, failing, hash) {
      HashDelivered(self, from, side, keys, hash);
    } else {
      HashKept(self, from, side, failing, keys, hash);
    }
  }

  lemma {:induction false} AllHashes(self: uint32, sys: System, s: State, side: Side, failing: set<Hash>, done: set<Hash>, keys: set<Hash>, order: seq<Hash>)
    requires Filed(s.stores) && keys !! done && keys + done == PendingAt(s.notices, side).Keys && Enumerates(order, keys)
    ensures var from := Midway(sys, s, side, failing, done, keys); var run := HashesRun(s.stores, failing, order);
            Runs(self, from, run) && After(self, from, run) == Midway(sys, s, side, failing, done + keys, {})
    decreases |order|
  {
    if order == [] {
      assert keys == {};
      assert done + keys == done;
    } else {
      var hash := order[0];
      OneHash(self, sys, s, side, failing, done, keys, hash);
      assert done + {hash} + (keys - {hash}) == done + keys;
      assert Enumerates(order[1..], keys - {hash}) by {
        forall h | h in keys - {hash} ensures h in order[1..] {
          var k :| 0 <= k < |order| && order[k] == h;
          assert order[1..][k - 1] == h;
        }
      }
      AllHashes(self, sys, s, side, failing, done + {hash}, keys - {hash}, order[1..]);
      RunsConcat(self, Midway(sys, s, side, failing, done, keys), HashRun(s.stores, failing, hash),
                 HashesRun(s.stores, failing, order[1..]));
    }
  }

  /** An undisturbed pass over one pending map is ConsumeSide. */
  lemma SideRefines(self: uint32, sys: System, side: Side, failing: set<Hash>, order: seq<Hash>)
    requires Filed(sys.s.stores) && ConsumerEnabled(sys, Open(side)) && Enumerates(order, PendingAt(sys.s.notices, side).Keys)
    ensures var run := SideRun(sys.s.stores, side, failing, order);
            && Runs(self, sys, run)
            && After(self, sys, run) == sys.(s := ConsumeSide(sys.s, side, failing), consumer := Draining(side, {}))
  {
    var s, keys := sys.s, PendingAt(sys.s.notices, side).Keys;
    DeliverNone(s.stores, PendingAt(s.notices, side), side, failing);
    assert Step(self, sys, Open(side)) == Midway(sys, s, side, failing, {}, keys);
    assert {} + keys == keys;
    AllHashes(self, sys, s, side, failing, {}, keys, order);
    RunsCons(self, sys, Open(side), HashesRun(s.stores, failing, order));
  }

  /** The three passes one after the other, in any order of the hashes, are Consume. */
  lemma ConsumingRefines(self: uint32, sys: System, failing: set<Hash>, first: seq<Hash>, second: seq<Hash>, third: seq<Hash>)
    returns (run: seq<Label>)
    requires Filed(sys.s.stores) && ConsumerEnabled(sys, Open(AtSource))
    requires Enumerates(first, sys.s.notices.atSource.Keys)
    requires Enumerates(second, sys.s.notices.atDestination.Keys)
    requires Enumerates(third, sys.s.notices.atBoth.Keys)
    ensures Runs(self, sys, run)
    ensures After(self, sys, run) == sys.(s := Consume(sys.s, failing), consumer := Draining(AtBoth, {}))
  {
    var a := SideRun(sys.s.stores, AtSource, failing, first);
    SideRefines(self, sys, AtSource, failing, first);
    var s1 := After(self, sys, a);
    var b := SideRun(s1.s.stores, AtDestination, failing, second);
    SideRefines(self, s1, AtDestination, failing, second);
    RunsConcat(self, sys, a, b);
    var s2 := After(self, s1, b);
    var c := SideRun(s2.s.stores, AtBoth, failing, third);
    SideRefines(self, s2, AtBoth, failing, third);
    RunsConcat(self, sys, a + b, c);
    run := a + b + c;
  }

  // ----- notifying -----

  lemma ArriveTwice(sys: System, a: seq<Note>, b: seq<Note>)
    ensures Arrive(Arrive(sys, a), b) == Arrive(sys, a + b)
  {
    SetNotesConcat(sys.s.notices, a, b);
    assert (set n | n in a) + (set n | n in b) == set n | n in a + b;
  }

  lemma ArriveNone(sys: System)
    ensures Arrive(sys, []) == sys
  {
  }

  /** Two runs one after the other, in terms of where they lead. */
  lemma Join(self: uint32, sys: System, a: seq<Note>, b: seq<Note>, first: seq<Label>, second: seq<Label>)
    requires Runs(self, sys, first) && After(self, sys, first) == Arrive(sys, a)
    requires Runs(self, Arrive(sys, a), second) && After(self, Arrive(sys, a), second) == Arrive(Arrive(sys, a), b)
    ensures Runs(self, sys, first + second) && After(self, sys, first + second) == Arrive(sys, a + b)
  {
    RunsConcat(self, sys, first, second);
    ArriveTwice(sys, a, b);
  }

  lemma {:induction false} NotifyMiniblocks(self: uint32, sys: System, at: Coordinates, shard: uint32, hs: seq<MiniblockHeader>)
    returns (run: seq<Label>)
    ensures Runs(self, sys, run) && After(self, sys, run) == Arrive(sys, NotesOfAll(self, at, shard, hs))
    decreases |hs|
  {
    run := [];
    if hs == [] {
      ArriveNone(sys);
    } else {
      var l, notes := Notify(at, shard, hs[0]), NotesOf(self, at, shard, hs[0]);
      var next := Arrive(sys, notes);
      assert Runs(self, next, []);
      RunsCons(self, sys, l, []);
      var rest := NotifyMiniblocks(self, next, at, shard, hs[1..]);
      Join(self, sys, notes, NotesOfAll(self, at, shard, hs[1..]), [l], rest);
      run := [l] + rest;
    }
  }

  lemma {:induction false} NotifyShards(self: uint32, sys: System, at: Coordinates, shards: seq<ShardData>) returns (run: seq<Label>)
    ensures Runs(self, sys, run) && After(self, sys, run) == Arrive(sys, NotesOfShards(self, at, shards))
    decreases |shards|
  {
    run := [];
    if shards == [] {
      ArriveNone(sys);
    } else {
      var notes := if at.metaNonce < 1 then [] else NotesOfAll(self, at, shards[0].shard, shards[0].headers);
      var first: seq<Label> := [];
      if at.metaNonce < 1 {
        ArriveNone(sys);
      } else {
        first := NotifyMiniblocks(self, sys, at, shards[0].shard, shards[0].headers);
      }
      var rest := NotifyShards(self, Arrive(sys, notes), at, shards[1..]);
      Join(self, sys, notes, NotesOfShards(self, at, shards[1..]), first, rest);
      run := first + rest;
    }
  }

  lemma NotifyHeader(self: uint32, sys: System, header: NotarizedHeader) returns (run: seq<Label>)
    ensures Runs(self, sys, run) && After(self, sys, run) == Arrive(sys, NotesOfHeader(self, header))
  {
    run := [];
    match header {
      case OtherHeader => ArriveNone(sys);
      case MetaBlock(nonce, hash, shard, hs, shardInfo) =>
        var at := Coordinates(nonce, hash);
        var notes := NotesOfAll(self, at, shard, hs);
        var first := NotifyMiniblocks(self, sys, at, shard, hs);
        var second := NotifyShards(self, Arrive(sys, notes), at, shardInfo);
        Join(self, sys, notes, NotesOfShards(self, at, shardInfo), first, second);
        run := first + second;
    }
  }

  lemma {:induction false} NotifyHeaders(self: uint32, sys: System, headers: seq<NotarizedHeader>) returns (run: seq<Label>)
    ensures Runs(self, sys, run) && After(self, sys, run) == Arrive(sys, NotesOfHeaders(self, headers))
    decreases |headers|
  {
    run := [];
    if headers == [] {
      ArriveNone(sys);
    } else {
      var notes := NotesOfHeader(self, headers[0]);
      var first := NotifyHeader(self, sys, headers[0]);
      var rest := NotifyHeaders(self, Arrive(sys, notes), headers[1..]);
      Join(self, sys, notes, NotesOfHeaders(self, headers[1..]), first, rest);
      run := first + rest;
    }
  }

  /** An undisturbed OnNotarizedBlocks: all its notes arrive, then the consumer passes over the three maps. */
  lemma NotarizingRefines(self: uint32, sys: System, headers: seq<NotarizedHeader>, failing: set<Hash>) returns (run: seq<Label>)
    requires Filed(sys.s.stores) && ConsumerEnabled(sys, Open(AtSource))
    ensures Runs(self, sys, run)
    ensures var notes := NotesOfHeaders(self, headers);
            After(self, sys, run) == Arrive(sys, notes).(
              s := OnNotarizedBlocks(sys.s, self, headers, failing), consumer := Draining(AtBoth, {}))
  {
    var noted := Arrive(sys, NotesOfHeaders(self, headers));
    var first := NotifyHeaders(self, sys, headers);
    var source := Enumeration(noted.s.notices.atSource.Keys);
    var destination := Enumeration(noted.s.notices.atDestination.Keys);
    var both := Enumeration(noted.s.notices.atBoth.Keys);
    var second := ConsumingRefines(self, noted, failing, source, destination, both);
    RunsConcat(self, sys, first, second);
    run := first + second;
  }

  // ----- whole runs -----

  /** Neither the recorder nor the consumer is at work. */
  predicate Calm(sys: System) {
    sys.recorder.Idle? && ConsumerEnabled(sys, Open(AtSource))
  }

  /** The machine can follow one event. */
  lemma FollowsEvent(self: uint32, sys: System, e: Event) returns (run: seq<Label>)
    requires Calm(sys) && Filed(sys.s.stores)
    ensures Runs(self, sys, run)
    ensures var end := After(self, sys, run); Calm(end) && end.s == Apply(self, sys.s, e)
  {
    match e {
      case SaveHeader(h) =>
        run := [SaveBlockEpoch(h)];
        RunsCons(self, sys, SaveBlockEpoch(h), []);
      case Record(h, mb, faults, evicted) =>
        run := RecordingRun(sys.s, h, mb, faults, evicted);
        RecordingRefines(self, sys, h, mb, faults, evicted);
      case Notarized(headers, failing) =>
        run := NotarizingRefines(self, sys, headers, failing);
      case SaveRound(h) =>
        run := [SaveBlockRound(h)];
        RunsCons(self, sys, SaveBlockRound(h), []);
    }
  }

  lemma {:induction false} FollowsFrom(self: uint32, sys: System, events: seq<Event>) returns (run: seq<Label>)
    requires Calm(sys) && Invariant(sys) && HistoryInterleaving.Arrived(sys)
    ensures Runs(self, sys, run)
    ensures var end := After(self, sys, run); Calm(end) && end.s == Run(self, sys.s, events)
    decreases |events|
  {
    run := [];
    if events != [] {
      var first := FollowsEvent(self, sys, events[0]);
      RunKeepsInvariant(self, sys, first);
      var rest := FollowsFrom(self, After(self, sys, first), events[1..]);
      RunsConcat(self, sys, first, rest);
      run := first + rest;
    }
  }

  /** Every run of whole operations is a run of the interleaved machine. */
  lemma EveryRunIsFollowed(self: uint32, events: seq<Event>) returns (run: seq<Label>)
    ensures Runs(self, START, run) && After(self, START, run).s == Run(self, EMPTY, events)
  {
    StartInvariant();
    run := FollowsFrom(self, START, events);
  }
}
