/**
 Recording a miniblock and learning where it was notarized commute: however the
 two are interleaved, the stored metadata ends up the same.
 */
module HistoryOrder {
  import opened Bits
  import opened Hashes
  import opened History
  import opened HistoryLaws

  datatype Option<+T> = None | Some(value: T)

  /** What a state says about one miniblock: its metadata and its pending notifications. */
  datatype View = View(stored: Option<Metadata>, atSource: Option<Coordinates>,
                       atDestination: Option<Coordinates>, atBoth: Option<Coordinates>)

  function Get(p: Pending, m: Hash): Option<Coordinates> {
    if m in p then Some(p[m]) else None
  }

  function Lookup(st: Stores, m: Hash): Option<Metadata> {
    if Found(st, m) then Some(st.metadata[(m, st.epochByHash[m])]) else None
  }

  function ViewOf(s: State, m: Hash): View {
    View(Lookup(s.stores, m), Get(s.notices.atSource, m), Get(s.notices.atDestination, m), Get(s.notices.atBoth, m))
  }

  // ----- each operation, seen from one miniblock -----

  function Notice(v: View, note: Note): View {
    match note.side
    case AtSource => v.(atSource := Some(note.at))
    case AtDestination => v.(atDestination := Some(note.at))
    case AtBoth => v.(atBoth := Some(note.at))
  }

  function NoticeAll(v: View, notes: seq<Note>, m: Hash): View
    decreases |notes|
  {
    if notes == [] then v
    else NoticeAll(if notes[0].hash == m then Notice(v, notes[0]) else v, notes[1..], m)
  }

  function PatchIf(side: Side, md: Metadata, at: Option<Coordinates>): Metadata {
    if at.Some? then Patch(side, md, at.value) else md
  }

  /** All pending notifications delivered, in the order of consumption. */
  function Settle(md: Metadata, v: View): Metadata {
    PatchIf(AtBoth, PatchIf(AtDestination, PatchIf(AtSource, md, v.atSource), v.atDestination), v.atBoth)
  }

  function Settled(v: View): View {
    if v.stored.Some? then View(Some(Settle(v.stored.value, v)), None, None, None) else v
  }

  lemma {:induction false} SetNotesView(st: Stores, n: Notices, recent: set<Key>, notes: seq<Note>, m: Hash)
    ensures ViewOf(State(st, SetNotes(n, notes), recent), m) == NoticeAll(ViewOf(State(st, n, recent), m), notes, m)
    decreases |notes|
  {
    if notes != [] {
      SetNotesView(st, SetNote(n, notes[0]), recent, notes[1..], m);
    }
  }

  function SideOf(v: View, side: Side): Option<Coordinates> {
    match side
    case AtSource => v.atSource
    case AtDestination => v.atDestination
    case AtBoth => v.atBoth
  }

  function Without(v: View, side: Side): View {
    match side
    case AtSource => v.(atSource := None)
    case AtDestination => v.(atDestination := None)
    case AtBoth => v.(atBoth := None)
  }

  /** Consuming one pending map, seen from one miniblock. */
  lemma ConsumeSideView(s: State, side: Side, m: Hash)
    ensures var v := ViewOf(s, m);
            ViewOf(ConsumeSide(s, side, {}), m) ==
            if v.stored.Some? then Without(v.(stored := Some(PatchIf(side, v.stored.value, SideOf(v, side)))), side) else v
  {
    var r := ConsumeSide(s, side, {});
    assert Found(r.stores, m) <==> Found(s.stores, m);
  }

  lemma ConsumeView(s: State, m: Hash)
    ensures ViewOf(Consume(s, {}), m) == Settled(ViewOf(s, m))
  {
    var s1 := ConsumeSide(s, AtSource, {});
    var s2 := ConsumeSide(s1, AtDestination, {});
    ConsumeSideView(s, AtSource, m);
    ConsumeSideView(s1, AtDestination, m);
    ConsumeSideView(s2, AtBoth, m);
  }

  // ----- events -----

  const UNSEEN := View(None, None, None, None)

  /** The notifications of a run, in order. */
  function NotesOfEvents(self: uint32, events: seq<Event>): seq<Note> {
    if events == [] then []
    else (if events[0].Notarized? then NotesOfHeaders(self, events[0].headers) else [])
         + NotesOfEvents(self, events[1..])
  }

  /** The last notification of each kind for m. */
  function Last(notes: seq<Note>, m: Hash): View {
    NoticeAll(UNSEEN, notes, m)
  }

  /** An event that succeeds, does not record m, and whose header hash is not m. */
  predicate Bystander(e: Event, m: Hash) {
    match e
    case SaveHeader(h) => h.hash != m
    case Record(_, mb, faults, _) => mb.hash != m && faults == NO_FAULTS
    case Notarized(_, failing) => failing == {}
    case SaveRound(_) => true
  }

  predicate Bystanders(events: seq<Event>, m: Hash) {
    forall e | e in events :: Bystander(e, m)
  }

  predicate Unrecorded(s: State, m: Hash) {
    m !in s.stores.epochByHash && forall key | key in s.recent :: key.0 != m
  }

  lemma BystanderView(self: uint32, s: State, e: Event, m: Hash)
    requires Bystander(e, m)
    ensures var v := ViewOf(s, m);
            ViewOf(Apply(self, s, e), m) ==
            if e.Notarized? then Settled(NoticeAll(v, NotesOfHeaders(self, e.headers), m)) else v
    ensures Unrecorded(s, m) ==> Unrecorded(Apply(self, s, e), m)
  {
    if e.Notarized? {
      var notes := NotesOfHeaders(self, e.headers);
      var s0 := s.(notices := SetNotes(s.notices, notes));
      SetNotesView(s.stores, s.notices, s.recent, notes, m);
      ConsumeView(s0, m);
    }
  }

  lemma {:induction false} NoticeAllConcat(v: View, a: seq<Note>, b: seq<Note>, m: Hash)
    ensures NoticeAll(v, a + b, m) == NoticeAll(NoticeAll(v, a, m), b, m)
    decreases |a|
  {
    if a == [] {
      assert a + b == b;
    } else {
      assert (a + b)[1..] == a[1..] + b;
      NoticeAllConcat(if a[0].hash == m then Notice(v, a[0]) else v, a[1..], b, m);
    }
  }

  /** Until m is recorded, its notifications only pile up. */
  lemma {:induction false} BeforeRecording(self: uint32, s: State, events: seq<Event>, m: Hash)
    requires Bystanders(events, m) && Unrecorded(s, m)
    ensures var r := Run(self, s, events);
            Unrecorded(r, m) && ViewOf(r, m) == NoticeAll(ViewOf(s, m), NotesOfEvents(self, events), m)
    decreases |events|
  {
    if events != [] {
      var e := events[0];
      BystanderView(self, s, e, m);
      BeforeRecording(self, Apply(self, s, e), events[1..], m);
      if e.Notarized? {
        NoticesKeepStored(ViewOf(s, m), NotesOfHeaders(self, e.headers), m);
        NoticeAllConcat(ViewOf(s, m), NotesOfHeaders(self, e.headers), NotesOfEvents(self, events[1..]), m);
      } else {
        assert [] + NotesOfEvents(self, events[1..]) == NotesOfEvents(self, events[1..]);
      }
    }
  }

  lemma {:induction false} NoticesKeepStored(v: View, notes: seq<Note>, m: Hash)
    ensures NoticeAll(v, notes, m).stored == v.stored
    decreases |notes|
  {
    if notes != [] {
      NoticesKeepStored(if notes[0].hash == m then Notice(v, notes[0]) else v, notes[1..], m);
    }
  }

  // ----- one miniblock is notarized either at both sides or at each side -----

  predicate OneKind(v: View, both: bool) {
    if both then v.atSource == None && v.atDestination == None else v.atBoth == None
  }

  predicate NotesOneKind(notes: seq<Note>, m: Hash, both: bool) {
    forall n | n in notes && n.hash == m :: n.side == AtBoth <==> both
  }

  /** v and w deliver the same final metadata to md and to base. */
  predicate SameOutcome(md: Metadata, v: View, base: Metadata, w: View, both: bool) {
    OneKind(v, both) && OneKind(w, both) && Settle(md, v) == Settle(base, w)
  }

  lemma {:induction false} NoticesSettleAlike(md: Metadata, v: View, base: Metadata, w: View, notes: seq<Note>, m: Hash, both: bool)
    requires SameOutcome(md, v, base, w, both) && NotesOneKind(notes, m, both)
    ensures SameOutcome(md, NoticeAll(v, notes, m), base, NoticeAll(w, notes, m), both)
    decreases |notes|
  {
    if notes != [] {
      var n := notes[0];
      assert n in notes;
      var v' := if n.hash == m then Notice(v, n) else v;
      var w' := if n.hash == m then Notice(w, n) else w;
      NoticesSettleAlike(md, v', base, w', notes[1..], m, both);
    }
  }

  /** Once m is recorded, each notification reaches its metadata now or later. */
  lemma {:induction false} AfterRecording(self: uint32, s: State, events: seq<Event>, m: Hash, base: Metadata, w: View, both: bool)
    requires Bystanders(events, m) && NotesOneKind(NotesOfEvents(self, events), m, both)
    requires ViewOf(s, m).stored.Some? && SameOutcome(ViewOf(s, m).stored.value, ViewOf(s, m), base, w, both)
    ensures var r := ViewOf(Run(self, s, events), m);
            && r.stored.Some?
            && SameOutcome(r.stored.value, r, base, NoticeAll(w, NotesOfEvents(self, events), m), both)
    decreases |events|
  {
    if events != [] {
      var e, rest, v := events[0], NotesOfEvents(self, events[1..]), ViewOf(s, m);
      BystanderView(self, s, e, m);
      if e.Notarized? {
        var notes := NotesOfHeaders(self, e.headers);
        assert forall n | n in notes :: n in NotesOfEvents(self, events);
        assert forall n | n in rest :: n in NotesOfEvents(self, events);
        NoticesKeepStored(v, notes, m);
        NoticesSettleAlike(v.stored.value, v, base, w, notes, m, both);
        AfterRecording(self, Apply(self, s, e), events[1..], m, base, NoticeAll(w, notes, m), both);
        NoticeAllConcat(w, notes, rest, m);
      } else {
        assert [] + rest == rest;
        AfterRecording(self, Apply(self, s, e), events[1..], m, base, w, both);
      }
    }
  }

  // ----- shards are a function of the miniblock -----

  predicate Matches(h: MiniblockHeader, mb: Miniblock) {
    h.hash == mb.hash ==> h.sender == mb.sender && h.receiver == mb.receiver
  }

  predicate HeaderMatches(header: NotarizedHeader, mb: Miniblock) {
    header.MetaBlock? ==>
      && (forall h | h in header.headers :: Matches(h, mb))
      && forall sd | sd in header.shardInfo :: forall h | h in sd.headers :: Matches(h, mb)
  }

  predicate EventMatches(e: Event, mb: Miniblock) {
    e.Notarized? ==> forall header | header in e.headers :: HeaderMatches(header, mb)
  }

  lemma {:induction false} NotesOfAllOneKind(self: uint32, at: Coordinates, shard: uint32, hs: seq<MiniblockHeader>, mb: Miniblock)
    requires forall h | h in hs :: Matches(h, mb)
    ensures NotesOneKind(NotesOfAll(self, at, shard, hs), mb.hash, NotarizedAtBoth(mb.sender, mb.receiver))
  {
    if hs != [] {
      NotesOfAllOneKind(self, at, shard, hs[1..], mb);
      assert Matches(hs[0], mb);
    }
  }

  lemma {:induction false} NotesOfShardsOneKind(self: uint32, at: Coordinates, sds: seq<ShardData>, mb: Miniblock)
    requires forall sd | sd in sds :: forall h | h in sd.headers :: Matches(h, mb)
    ensures NotesOneKind(NotesOfShards(self, at, sds), mb.hash, NotarizedAtBoth(mb.sender, mb.receiver))
  {
    if sds != [] {
      NotesOfShardsOneKind(self, at, sds[1..], mb);
      NotesOfAllOneKind(self, at, sds[0].shard, sds[0].headers, mb);
    }
  }

  lemma {:induction false} NotesOfHeadersOneKind(self: uint32, headers: seq<NotarizedHeader>, mb: Miniblock)
    requires forall header | header in headers :: HeaderMatches(header, mb)
    ensures NotesOneKind(NotesOfHeaders(self, headers), mb.hash, NotarizedAtBoth(mb.sender, mb.receiver))
  {
    if headers != [] {
      var header := headers[0];
      assert HeaderMatches(header, mb);
      NotesOfHeadersOneKind(self, headers[1..], mb);
      if header.MetaBlock? {
        var at := Coordinates(header.nonce, header.hash);
        NotesOfAllOneKind(self, at, header.shard, header.headers, mb);
        NotesOfShardsOneKind(self, at, header.shardInfo, mb);
      }
    }
  }

  lemma {:induction false} NotesOfEventsOneKind(self: uint32, events: seq<Event>, mb: Miniblock)
    requires forall e | e in events :: EventMatches(e, mb)
    ensures NotesOneKind(NotesOfEvents(self, events), mb.hash, NotarizedAtBoth(mb.sender, mb.receiver))
  {
    if events != [] {
      assert EventMatches(events[0], mb);
      NotesOfEventsOneKind(self, events[1..], mb);
      if events[0].Notarized? {
        NotesOfHeadersOneKind(self, events[0].headers, mb);
      }
    }
  }

  // ----- the main result -----

  /** A run in which one miniblock is recorded once, closed by a notification round without headers. */
  function Story(before: seq<Event>, header: Header, mb: Miniblock, evicted: set<Key>, after: seq<Event>): seq<Event> {
    before + ([Record(header, mb, NO_FAULTS, evicted)] + (after + [Notarized([], {})]))
  }

  ghost predicate Clean(events: seq<Event>, mb: Miniblock) {
    Bystanders(events, mb.hash) && forall e | e in events :: EventMatches(e, mb)
  }

  /** What one miniblock's view ends as. */
  lemma FinalView(self: uint32, before: seq<Event>, header: Header, mb: Miniblock, evicted: set<Key>, after: seq<Event>)
    requires Clean(before, mb) && Clean(after, mb)
    ensures var notes := NotesOfEvents(self, before) + NotesOfEvents(self, after);
            ViewOf(Run(self, EMPTY, Story(before, header, mb, evicted, after)), mb.hash)
            == View(Some(Settle(Fresh(header, mb), Last(notes, mb.hash))), None, None, None)
  {
    var m, both, base := mb.hash, NotarizedAtBoth(mb.sender, mb.receiver), Fresh(header, mb);
    var early, late := NotesOfEvents(self, before), NotesOfEvents(self, after);
    var record, close := Record(header, mb, NO_FAULTS, evicted), Notarized([], {});
    NotesOfEventsOneKind(self, before, mb);
    NotesOfEventsOneKind(self, after, mb);

    var s0 := Run(self, EMPTY, before);
    BeforeRecording(self, EMPTY, before, m);
    assert ViewOf(EMPTY, m) == UNSEEN;
    NoticesSettleAlike(base, UNSEEN, base, UNSEEN, early, m, both);

    var s1 := Apply(self, s0, record);
    assert ViewOf(s1, m) == Last(early, m).(stored := Some(base));
    AfterRecording(self, s1, after, m, base, Last(early, m), both);
    NoticeAllConcat(UNSEEN, early, late, m);

    var s2 := Run(self, s1, after);
    BystanderView(self, s2, close, m);
    RunConcat(self, EMPTY, before, [record] + (after + [close]));
    RunConcat(self, s0, [record], after + [close]);
    RunConcat(self, s1, after, [close]);
    RunOne(self, s0, record);
    RunOne(self, s2, close);
  }

  /** A note tells this side of a miniblock. */
  predicate Tells(note: Note, m: Hash, side: Side) {
    note.hash == m && (note.side == side || note.side == AtBoth)
  }

  /** at is what the last note for a side says; nonce 0 and no hash if there is none. */
  ghost predicate LastTold(notes: seq<Note>, m: Hash, side: Side, at: Coordinates) {
    if forall k | 0 <= k < |notes| :: !Tells(notes[k], m, side) then at.metaNonce == 0 && at.metaHash == []
    else exists k | 0 <= k < |notes| :: Tells(notes[k], m, side) && notes[k].at == at
                                       && forall j | k < j < |notes| :: !Tells(notes[j], m, side)
  }

  lemma LastToldMore(notes: seq<Note>, n: Note, m: Hash, side: Side, at: Coordinates)
    requires LastTold(notes, m, side, at)
    ensures LastTold(notes + [n], m, side, if Tells(n, m, side) then n.at else at)
  {
    var all := notes + [n];
    if Tells(n, m, side) {
      assert all[|notes|] == n;
    } else if exists k | 0 <= k < |notes| :: Tells(notes[k], m, side) {
      var k :| 0 <= k < |notes| && Tells(notes[k], m, side) && notes[k].at == at
               && forall j | k < j < |notes| :: !Tells(notes[j], m, side);
      assert all[k] == notes[k];
      assert forall j | k < j < |all| :: !Tells(all[j], m, side);
    } else {
      assert forall k | 0 <= k < |all| :: !Tells(all[k], m, side);
    }
  }

  /** One note more, before everything is delivered. */
  lemma SettleMore(base: Metadata, v: View, n: Note, m: Hash, both: bool)
    requires OneKind(v, both) && (n.hash == m ==> (n.side == AtBoth <==> both))
    ensures var v' := if n.hash == m then Notice(v, n) else v; var r, r' := Settle(base, v), Settle(base, v');
            && OneKind(v', both) && (SameRecord(base, r) ==> SameRecord(base, r'))
            && r'.atSource == (if Tells(n, m, AtSource) then n.at else r.atSource)
            && r'.atDestination == (if Tells(n, m, AtDestination) then n.at else r.atDestination)
  {
  }

  /** Delivering the last note of each kind is telling each side the last note for it. */
  lemma {:induction false} SettledIsLast(base: Metadata, notes: seq<Note>, m: Hash, both: bool)
    requires NotesOneKind(notes, m, both) && base.atSource == NOWHERE && base.atDestination == NOWHERE
    ensures var r := Settle(base, Last(notes, m));
            && OneKind(Last(notes, m), both) && SameRecord(base, r)
            && LastTold(notes, m, AtSource, r.atSource) && LastTold(notes, m, AtDestination, r.atDestination)
    decreases |notes|
  {
    if notes != [] {
      var init, n := notes[..|notes| - 1], notes[|notes| - 1];
      assert notes == init + [n];
      assert n in notes && forall x | x in init :: x in notes;
      SettledIsLast(base, init, m, both);
      LastMore(init, n, m);
      SettleMore(base, Last(init, m), n, m, both);
      var r := Settle(base, Last(init, m));
      LastToldMore(init, n, m, AtSource, r.atSource);
      LastToldMore(init, n, m, AtDestination, r.atDestination);
    }
  }

  lemma LastMore(notes: seq<Note>, n: Note, m: Hash)
    ensures Last(notes + [n], m) == if n.hash == m then Notice(Last(notes, m), n) else Last(notes, m)
  {
    NoticeAllConcat(UNSEEN, notes, [n], m);
    assert NoticeAll(if n.hash == m then Notice(Last(notes, m), n) else Last(notes, m), [n][1..], m)
        == if n.hash == m then Notice(Last(notes, m), n) else Last(notes, m);
  }

  /**
   Whatever happens before and after the recording, the metadata ends up where
   lookups look, telling of the recorded block and miniblock; each side's
   coordinates are those of the last notification for it, and none is left pending.
   */
  lemma FinalMetadata(self: uint32, before: seq<Event>, header: Header, mb: Miniblock, evicted: set<Key>, after: seq<Event>)
    requires Clean(before, mb) && Clean(after, mb)
    ensures var notes := NotesOfEvents(self, before) + NotesOfEvents(self, after);
            var s := Run(self, EMPTY, Story(before, header, mb, evicted, after));
            && mb.hash in s.stores.epochByHash && (mb.hash, s.stores.epochByHash[mb.hash]) in s.stores.metadata
            && var m := s.stores.metadata[(mb.hash, s.stores.epochByHash[mb.hash])];
               && Describes(m, header, mb)
               && LastTold(notes, mb.hash, AtSource, m.atSource)
               && LastTold(notes, mb.hash, AtDestination, m.atDestination)
               && mb.hash !in s.notices.atSource && mb.hash !in s.notices.atDestination && mb.hash !in s.notices.atBoth
  {
    var notes := NotesOfEvents(self, before) + NotesOfEvents(self, after);
    var both := NotarizedAtBoth(mb.sender, mb.receiver);
    FinalView(self, before, header, mb, evicted, after);
    NotesOfEventsOneKind(self, before, mb);
    NotesOfEventsOneKind(self, after, mb);
    SettledIsLast(Fresh(header, mb), notes, mb.hash, both);
  }

  /**
   Two runs with the same notifications in the same order agree on the metadata,
   wherever among them the recording stands.
   */
  lemma OrderIndependent(self: uint32, header: Header, mb: Miniblock, evicted: set<Key>, evicted': set<Key>,
                         before: seq<Event>, after: seq<Event>, before': seq<Event>, after': seq<Event>)
    requires Clean(before, mb) && Clean(after, mb) && Clean(before', mb) && Clean(after', mb)
    requires NotesOfEvents(self, before) + NotesOfEvents(self, after)
          == NotesOfEvents(self, before') + NotesOfEvents(self, after')
    ensures ViewOf(Run(self, EMPTY, Story(before, header, mb, evicted, after)), mb.hash)
         == ViewOf(Run(self, EMPTY, Story(before', header, mb, evicted', after')), mb.hash)
  {
    FinalView(self, before, header, mb, evicted, after);
    FinalView(self, before', header, mb, evicted', after');
  }
}
