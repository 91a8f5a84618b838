/**
 The history repository one storage operation at a time: a recorder, a consumer
 of notifications and the arrival of notifications interleave freely. The
 deduplication cache keeps a re-recorded miniblock from erasing notarization
 coordinates that were patched into its metadata.
 */
module HistoryInterleaving {
  import opened Bits
  import opened Hashes
  import opened History

  // ----- the machine -----

  /** The recorder, inside recordMiniblock for one miniblock (one at a time, under the record mutex). */
  datatype Recorder =
    | Idle
    | Checked(header: Header, mb: Miniblock)
    | EpochSaved(header: Header, mb: Miniblock)
    | MetadataPut(header: Header, mb: Miniblock)
    | Marked(header: Header, mb: Miniblock, next: nat)

  /** The consumer, at one key of one pending map (one at a time, under the consume mutex). */
  datatype Consumer =
    | Waiting
    | Draining(side: Side, keys: set<Hash>)
    | Taken(side: Side, keys: set<Hash>, hash: Hash, at: Coordinates)
    | Located(side: Side, keys: set<Hash>, hash: Hash, at: Coordinates, epoch: uint32)
    | Loaded(side: Side, keys: set<Hash>, hash: Hash, at: Coordinates, found: Metadata)
    | Patched(side: Side, keys: set<Hash>, hash: Hash)

  /** noted remembers every notification that ever arrived. */
  datatype System = System(s: State, recorder: Recorder, consumer: Consumer, noted: set<Note>)

  const START := System(EMPTY, Idle, Waiting, {})

  /** One storage or cache operation, or an arrival. ok is false when the operation fails. */
  datatype Label =
    | Check(header: Header, mb: Miniblock)
    | SaveMiniblockEpoch(ok: bool)
    | PutFresh(ok: bool)
    | Mark(dropped: set<Key>)
    | PutTx(ok: bool)
    | SaveBlockEpoch(header: Header)
    | SaveBlockRound(header: Header)
    | Notify(at: Coordinates, shard: uint32, notified: MiniblockHeader)
    | Open(side: Side)
    | Take(hash: Hash)
    | Locate(ok: bool)
    | Load(ok: bool)
    | PutPatched(ok: bool)
    | Forget
    | Evict(dropped: set<Key>)

  function KeyOf(header: Header, mb: Miniblock): Key {
    (mb.hash, header.epoch)
  }

  function Stored(sys: System, stores: Stores): System {
    sys.(s := sys.s.(stores := stores))
  }

  predicate RecorderEnabled(sys: System, l: Label) {
    match l
    case Check(_, _) => sys.recorder.Idle?
    case SaveMiniblockEpoch(_) => sys.recorder.Checked?
    case PutFresh(_) => sys.recorder.EpochSaved?
    case Mark(dropped) => sys.recorder.MetadataPut?
    case PutTx(_) => sys.recorder.Marked? && sys.recorder.next < |sys.recorder.mb.txHashes|
    case SaveBlockEpoch(_) => sys.recorder.Idle?
    case SaveBlockRound(_) => sys.recorder.Idle?
    case _ => false
  }

  function RecorderStep(sys: System, l: Label): System
    requires RecorderEnabled(sys, l)
  {
    var st, r := sys.s.stores, sys.recorder;
    match l
    case Check(h, mb) =>
      if KeyOf(h, mb) in sys.s.recent then sys else sys.(recorder := Checked(h, mb))
    case SaveMiniblockEpoch(ok) =>
      if !ok then sys.(recorder := Idle)
      else Stored(sys, SaveEpoch(st, r.mb.hash, r.header.epoch)).(recorder := EpochSaved(r.header, r.mb))
    case PutFresh(ok) =>
      if !ok then sys.(recorder := Idle)
      else Stored(sys, PutMetadata(st, r.mb.hash, Fresh(r.header, r.mb))).(recorder := MetadataPut(r.header, r.mb))
    case Mark(dropped) =>
      var next := if r.mb.txHashes == [] then Idle else Marked(r.header, r.mb, 0);
      sys.(s := sys.s.(recent := sys.s.recent - dropped + {KeyOf(r.header, r.mb)}), recorder := next)
    case PutTx(ok) =>
      var tx := r.mb.txHashes[r.next];
      var st' := if ok then st.(miniblockByTx := st.miniblockByTx[tx := r.mb.hash]) else st;
      var next := if r.next + 1 == |r.mb.txHashes| then Idle else Marked(r.header, r.mb, r.next + 1);
      Stored(sys, st').(recorder := next)
    case SaveBlockEpoch(h) => Stored(sys, SaveEpoch(st, h.hash, h.epoch))
    case SaveBlockRound(h) => Stored(sys, PutRound(st, h))
  }

  predicate ConsumerEnabled(sys: System, l: Label) {
    match l
    case Open(_) => sys.consumer.Waiting? || (sys.consumer.Draining? && sys.consumer.keys == {})
    case Take(hash) => sys.consumer.Draining? && hash in sys.consumer.keys
    case Locate(_) => sys.consumer.Taken?
    case Load(_) => sys.consumer.Located?
    case PutPatched(_) => sys.consumer.Loaded?
    case Forget => sys.consumer.Patched?
    case _ => false
  }

  function ConsumerStep(sys: System, l: Label): System
    requires ConsumerEnabled(sys, l)
  {
    var st, c := sys.s.stores, sys.consumer;
    match l
    case Open(side) => sys.(consumer := Draining(side, PendingAt(sys.s.notices, side).Keys))
    case Take(hash) =>
      var pending := PendingAt(sys.s.notices, c.side);
      if hash in pending then sys.(consumer := Taken(c.side, c.keys - {hash}, hash, pending[hash]))
      else sys.(consumer := Draining(c.side, c.keys - {hash}))
    case Locate(ok) =>
      if ok && c.hash in st.epochByHash
      then sys.(consumer := Located(c.side, c.keys, c.hash, c.at, st.epochByHash[c.hash]))
      else sys.(consumer := Draining(c.side, c.keys))
    case Load(ok) =>
      if ok && (c.hash, c.epoch) in st.metadata
      then sys.(consumer := Loaded(c.side, c.keys, c.hash, c.at, st.metadata[(c.hash, c.epoch)]))
      else sys.(consumer := Draining(c.side, c.keys))
    case PutPatched(ok) =>
      if !ok then sys.(consumer := Draining(c.side, c.keys))
      else Stored(sys, PutMetadata(st, c.hash, Patch(c.side, c.found, c.at))).(consumer := Patched(c.side, c.keys, c.hash))
    case Forget =>
      var pending := PendingAt(sys.s.notices, c.side) - {c.hash};
      sys.(s := sys.s.(notices := WithPending(sys.s.notices, c.side, pending)), consumer := Draining(c.side, c.keys))
  }

  function Arrive(sys: System, notes: seq<Note>): System {
    sys.(s := sys.s.(notices := SetNotes(sys.s.notices, notes)), noted := sys.noted + set n | n in notes)
  }

  predicate Enabled(sys: System, l: Label) {
    RecorderEnabled(sys, l) || ConsumerEnabled(sys, l) || l.Notify? || l.Evict?
  }

  function Step(self: uint32, sys: System, l: Label): System
    requires Enabled(sys, l)
  {
    if RecorderEnabled(sys, l) then RecorderStep(sys, l)
    else if ConsumerEnabled(sys, l) then ConsumerStep(sys, l)
    else if l.Notify? then Arrive(sys, NotesOf(self, l.at, l.shard, l.notified))
    else sys.(s := sys.s.(recent := sys.s.recent - l.dropped))
  }

  /** The labels of a run; a label that is not enabled ends it. */
  predicate Runs(self: uint32, sys: System, run: seq<Label>)
    decreases |run|
  {
    run == [] || (Enabled(sys, run[0]) && Runs(self, Step(self, sys, run[0]), run[1..]))
  }

  function After(self: uint32, sys: System, run: seq<Label>): System
    requires Runs(self, sys, run)
    decreases |run|
  {
    if run == [] then sys else After(self, Step(self, sys, run[0]), run[1..])
  }

  // ----- coordinates are never lost -----

  /** The recorder has stored the metadata for key and is about to remember the key. */
  predicate AboutToMark(sys: System, key: Key) {
    sys.recorder.MetadataPut? && KeyOf(sys.recorder.header, sys.recorder.mb) == key
  }

  /** The recorder has found key to be new. */
  predicate FoundNew(sys: System, key: Key) {
    (sys.recorder.Checked? || sys.recorder.EpochSaved?) && KeyOf(sys.recorder.header, sys.recorder.mb) == key
  }

  /** Metadata is stored under key, and the cache knows, or will with the recorder's next step. */
  predicate Remembered(sys: System, key: Key) {
    key in sys.s.stores.metadata && (key in sys.s.recent || AboutToMark(sys, key))
  }

  predicate WithoutCoordinates(m: Metadata) {
    m.atSource == NOWHERE && m.atDestination == NOWHERE
  }

  ghost predicate Invariant(sys: System) {
    && Filed(sys.s.stores)
    && (forall key | key in sys.s.recent :: !FoundNew(sys, key))
    // what the consumer has in hand is what is stored, unless it was just recorded anew
    && (sys.consumer.Loaded? ==>
          var key := (sys.consumer.hash, sys.consumer.found.epoch);
          && key in sys.s.stores.metadata
          && sys.consumer.found.miniblockHash == sys.consumer.hash
          && (sys.s.stores.metadata[key] == sys.consumer.found || WithoutCoordinates(sys.s.stores.metadata[key])))
  }

  lemma StartInvariant()
    ensures Invariant(START)
  {
  }

  lemma RecorderKeepsInvariant(sys: System, l: Label)
    requires Invariant(sys) && RecorderEnabled(sys, l)
    ensures Invariant(RecorderStep(sys, l))
  {
  }

  lemma ConsumerKeepsInvariant(sys: System, l: Label)
    requires Invariant(sys) && ConsumerEnabled(sys, l)
    ensures Invariant(ConsumerStep(sys, l))
  {
  }

  lemma StepKeepsInvariant(self: uint32, sys: System, l: Label)
    requires Invariant(sys) && Enabled(sys, l)
    ensures Invariant(Step(self, sys, l))
  {
    if RecorderEnabled(sys, l) {
      RecorderKeepsInvariant(sys, l);
    } else if ConsumerEnabled(sys, l) {
      ConsumerKeepsInvariant(sys, l);
    }
  }

  /** The notification the consumer is working on. */
  predicate InHand(c: Consumer, note: Note) {
    (c.Taken? || c.Located? || c.Loaded?) && note == Note(c.hash, c.side, c.at)
  }

  predicate AllNoted(pending: Pending, side: Side, noted: set<Note>) {
    forall hash | hash in pending :: Note(hash, side, pending[hash]) in noted
  }

  predicate NoticesNoted(n: Notices, noted: set<Note>) {
    && AllNoted(n.atSource, AtSource, noted)
    && AllNoted(n.atDestination, AtDestination, noted)
    && AllNoted(n.atBoth, AtBoth, noted)
  }

  /** Whatever is pending or being consumed has arrived. */
  ghost predicate Arrived(sys: System) {
    && NoticesNoted(sys.s.notices, sys.noted)
    && forall note | InHand(sys.consumer, note) :: note in sys.noted
  }

  lemma {:induction false} SetNotesArrived(n: Notices, notes: seq<Note>, noted: set<Note>)
    requires NoticesNoted(n, noted) && forall note | note in notes :: note in noted
    ensures NoticesNoted(SetNotes(n, notes), noted)
    decreases |notes|
  {
    if notes != [] {
      assert notes[0] in notes;
      SetNotesArrived(SetNote(n, notes[0]), notes[1..], noted);
    }
  }

  lemma ConsumerKeepsArrived(sys: System, l: Label)
    requires Arrived(sys) && ConsumerEnabled(sys, l)
    ensures Arrived(ConsumerStep(sys, l))
  {
    var c, c' := sys.consumer, ConsumerStep(sys, l).consumer;
    forall note | InHand(c', note) ensures note in sys.noted {
      if !l.Take? {
        assert InHand(c, note);
      }
    }
  }

  lemma StepKeepsArrived(self: uint32, sys: System, l: Label)
    requires Arrived(sys) && Enabled(sys, l)
    ensures Arrived(Step(self, sys, l))
  {
    if RecorderEnabled(sys, l) {
      assert RecorderStep(sys, l).s.notices == sys.s.notices;
    } else if ConsumerEnabled(sys, l) {
      ConsumerKeepsArrived(sys, l);
    } else if l.Notify? {
      var notes := NotesOf(self, l.at, l.shard, l.notified);
      SetNotesArrived(sys.s.notices, notes, sys.noted + set n | n in notes);
    }
  }

  /** The cache drops key with this step. */
  predicate Drops(l: Label, key: Key) {
    (l.Evict? || l.Mark?) && key in l.dropped
  }

  /** Every notification for this miniblock carries coordinates. */
  predicate AllSomewhere(noted: set<Note>, hash: Hash) {
    forall note | note in noted && note.hash == hash :: note.at != NOWHERE
  }

  /** Coordinates once received stay, or give way to coordinates notified for this side. */
  predicate Held(noted: set<Note>, hash: Hash, side: Side, was: Coordinates, now: Coordinates) {
    was != NOWHERE ==>
      now != NOWHERE && (now == was || Note(hash, side, now) in noted || Note(hash, AtBoth, now) in noted)
  }

  ghost predicate Evolved(sys: System, sys': System, key: Key)
    requires key in sys.s.stores.metadata
  {
    && key in sys'.s.stores.metadata
    && var m, m' := sys.s.stores.metadata[key], sys'.s.stores.metadata[key];
       AllSomewhere(sys'.noted, key.0) ==>
         && Held(sys'.noted, key.0, AtSource, m.atSource, m'.atSource)
         && Held(sys'.noted, key.0, AtDestination, m.atDestination, m'.atDestination)
  }

  lemma EvolvedOn(sys: System, mid: System, end: System, key: Key)
    requires key in sys.s.stores.metadata && Evolved(sys, mid, key) && Evolved(mid, end, key) && mid.noted <= end.noted
    ensures Evolved(sys, end, key)
  {
  }

  lemma RecorderEvolves(sys: System, l: Label, key: Key)
    requires Invariant(sys) && RecorderEnabled(sys, l) && Remembered(sys, key) && !Drops(l, key)
    ensures Remembered(RecorderStep(sys, l), key) && Evolved(sys, RecorderStep(sys, l), key)
  {
  }

  lemma ConsumerEvolves(sys: System, l: Label, key: Key)
    requires Invariant(sys) && Arrived(sys) && ConsumerEnabled(sys, l) && Remembered(sys, key)
    ensures Remembered(ConsumerStep(sys, l), key) && Evolved(sys, ConsumerStep(sys, l), key)
  {
    if l.PutPatched? {
      var c := sys.consumer;
      assert InHand(c, Note(c.hash, c.side, c.at));
    }
  }

  lemma StepEvolves(self: uint32, sys: System, l: Label, key: Key)
    requires Invariant(sys) && Arrived(sys) && Enabled(sys, l) && Remembered(sys, key) && !Drops(l, key)
    ensures Remembered(Step(self, sys, l), key) && Evolved(sys, Step(self, sys, l), key)
  {
    if RecorderEnabled(sys, l) {
      RecorderEvolves(sys, l, key);
    } else if ConsumerEnabled(sys, l) {
      ConsumerEvolves(sys, l, key);
    }
  }

  lemma {:induction false} NotedGrows(self: uint32, sys: System, run: seq<Label>)
    requires Runs(self, sys, run)
    ensures sys.noted <= After(self, sys, run).noted
    decreases |run|
  {
    if run != [] {
      NotedGrows(self, Step(self, sys, run[0]), run[1..]);
    }
  }

  lemma {:induction false} RunEvolves(self: uint32, sys: System, run: seq<Label>, key: Key)
    requires Invariant(sys) && Arrived(sys) && Runs(self, sys, run) && Remembered(sys, key)
    requires forall l | l in run :: !Drops(l, key)
    ensures Remembered(After(self, sys, run), key) && Evolved(sys, After(self, sys, run), key)
    decreases |run|
  {
    if run != [] {
      var next := Step(self, sys, run[0]);
      StepKeepsInvariant(self, sys, run[0]);
      StepKeepsArrived(self, sys, run[0]);
      NotedGrows(self, next, run[1..]);
      StepEvolves(self, sys, run[0], key);
      RunEvolves(self, next, run[1..], key);
      EvolvedOn(sys, next, After(self, sys, run), key);
    }
  }

  lemma {:induction false} RunKeepsInvariant(self: uint32, sys: System, run: seq<Label>)
    requires Invariant(sys) && Arrived(sys) && Runs(self, sys, run)
    ensures Invariant(After(self, sys, run)) && Arrived(After(self, sys, run))
    decreases |run|
  {
    if run != [] {
      StepKeepsInvariant(self, sys, run[0]);
      StepKeepsArrived(self, sys, run[0]);
      RunKeepsInvariant(self, Step(self, sys, run[0]), run[1..]);
    }
  }

  /**
   From any moment of any run at which metadata is stored and remembered, and as
   long as the cache does not drop its key, coordinates it has received stay or
   give way to notified ones: it never returns to a version without them.
   */
  lemma CoordinatesNeverLost(self: uint32, past: seq<Label>, future: seq<Label>, key: Key)
    requires Runs(self, START, past) && Runs(self, After(self, START, past), future)
    requires Remembered(After(self, START, past), key) && forall l | l in future :: !Drops(l, key)
    ensures Evolved(After(self, START, past), After(self, After(self, START, past), future), key)
  {
    StartInvariant();
    RunKeepsInvariant(self, START, past);
    RunEvolves(self, After(self, START, past), future, key);
  }

  /** Storing fresh metadata makes it remembered. */
  lemma PutIsRemembered(self: uint32, sys: System)
    requires sys.recorder.EpochSaved?
    ensures Remembered(Step(self, sys, PutFresh(true)), KeyOf(sys.recorder.header, sys.recorder.mb))
  {
  }

  // ----- without the cache entry they can be lost -----

  lemma {:induction false} RunsAppend(self: uint32, sys: System, run: seq<Label>, l: Label)
    requires Runs(self, sys, run) && Enabled(After(self, sys, run), l)
    ensures Runs(self, sys, run + [l]) && After(self, sys, run + [l]) == Step(self, After(self, sys, run), l)
    decreases |run|
  {
    if run == [] {
      assert run + [l] == [l] && [l][1..] == [];
    } else {
      assert (run + [l])[1..] == run[1..] + [l];
      RunsAppend(self, Step(self, sys, run[0]), run[1..], l);
    }
  }

  /** One more label on a run, with the system it leads to. */
  lemma Extend(self: uint32, sys0: System, run: seq<Label>, sys: System, l: Label)
    returns (run': seq<Label>, sys': System)
    requires Runs(self, sys0, run) && After(self, sys0, run) == sys && Enabled(sys, l)
    ensures sys' == Step(self, sys, l)
    ensures Runs(self, sys0, run') && After(self, sys0, run') == sys'
  {
    RunsAppend(self, sys0, run, l);
    run', sys' := run + [l], Step(self, sys, l);
  }

  const LOST_HEADER := Header([7], 1, 1, 1)
  const LOST_MINIBLOCK := Miniblock([1], 0, 0, 0, [])
  const LOST_KEY: Key := ([1], 1)
  const LOST_AT := Coordinates(5, [9])

  lemma Recording(self: uint32, sys0: System, run: seq<Label>, sys: System)
    returns (run': seq<Label>, sys': System)
    requires Runs(self, sys0, run) && After(self, sys0, run) == sys
    requires sys.recorder.Idle? && LOST_KEY !in sys.s.recent
    ensures Runs(self, sys0, run') && After(self, sys0, run') == sys'
    ensures sys'.s.stores == PutMetadata(SaveEpoch(sys.s.stores, [1], 1), [1], Fresh(LOST_HEADER, LOST_MINIBLOCK))
    ensures sys'.recorder.Idle? && sys'.consumer == sys.consumer && sys'.s.notices == sys.s.notices
    ensures LOST_KEY in sys'.s.recent
  {
    run', sys' := Extend(self, sys0, run, sys, Check(LOST_HEADER, LOST_MINIBLOCK));
    run', sys' := Extend(self, sys0, run', sys', SaveMiniblockEpoch(true));
    run', sys' := Extend(self, sys0, run', sys', PutFresh(true));
    run', sys' := Extend(self, sys0, run', sys', Mark({}));
  }

  lemma Delivering(run: seq<Label>, sys: System) returns (run': seq<Label>, sys': System)
    requires Runs(0, START, run) && After(0, START, run) == sys
    requires sys.recorder.Idle? && sys.consumer.Waiting? && sys.s.notices == Notices(map[], map[], map[])
    requires Lookup(sys) == Fresh(LOST_HEADER, LOST_MINIBLOCK)
    ensures Runs(0, START, run') && After(0, START, run') == sys'
    ensures sys'.recorder.Idle? && sys'.s.recent == sys.s.recent && Lookup(sys').atSource == LOST_AT
  {
    run', sys' := Extend(0, START, run, sys, Notify(LOST_AT, 0, MiniblockHeader([1], 0, 0, 0)));
    assert sys'.s.notices.atBoth == map[[1] := LOST_AT] by {
      var note := Note([1], AtBoth, LOST_AT);
      assert NotesOf(0, LOST_AT, 0, MiniblockHeader([1], 0, 0, 0)) == [note];
      assert [note][1..] == [];
      assert SetNotes(sys.s.notices, [note]) == SetNote(sys.s.notices, note);
    }
    run', sys' := Extend(0, START, run', sys', Open(AtBoth));
    run', sys' := Extend(0, START, run', sys', Take([1]));
    run', sys' := Extend(0, START, run', sys', Locate(true));
    run', sys' := Extend(0, START, run', sys', Load(true));
    run', sys' := Extend(0, START, run', sys', PutPatched(true));
  }

  /** The metadata under the example's key, if it is where lookups find it. */
  function Lookup(sys: System): Metadata {
    if [1] in sys.s.stores.epochByHash && sys.s.stores.epochByHash[[1]] == 1 && LOST_KEY in sys.s.stores.metadata
    then sys.s.stores.metadata[LOST_KEY] else Metadata(0, 0, [], [], 0, 0, 0, 0, NOWHERE, NOWHERE)
  }

  /** Once the cache drops a key, recording its miniblock again erases the coordinates. */
  lemma EvictionLosesCoordinates() returns (past: seq<Label>, future: seq<Label>)
    ensures Runs(0, START, past) && Runs(0, After(0, START, past), future)
    ensures var sys := After(0, START, past); var end := After(0, sys, future);
            && Remembered(sys, LOST_KEY) && sys.s.stores.metadata[LOST_KEY].atSource == LOST_AT != NOWHERE
            && Remembered(end, LOST_KEY) && end.s.stores.metadata[LOST_KEY].atSource == NOWHERE
  {
    var sys;
    past, sys := Recording(0, START, [], START);
    past, sys := Delivering(past, sys);
    var end;
    future, end := Extend(0, sys, [], sys, Evict({LOST_KEY}));
    future, end := Recording(0, sys, future, end);
  }
}
