/**
 The bounded list of health records: the most important ones seen so far, with
 the files they are saved in.
 */
module HealthRecords {
  import opened Bits

  /** A memory usage record: the file it is saved in and the heap it reports. */
  datatype Record = Record(filename: string, heapInuse: uint64)

  /** Which of the record files' operations succeed. */
  datatype Disk = Disk(saves: bool, deletes: bool)

  /** The list, most important first, and the files on disk. */
  datatype Shelf = Shelf(items: seq<Record>, files: set<string>)

  predicate MoreImportant(a: Record, b: Record) {
    a.heapInuse > b.heapInuse
  }

  /** The place of the first item, from k on, that r is more important than, or the end. */
  function PlaceFrom(items: seq<Record>, r: Record, k: nat): (p: nat)
    requires k <= |items|
    ensures k <= p <= |items|
    ensures forall j | k <= j < p :: !MoreImportant(r, items[j])
    ensures p < |items| ==> MoreImportant(r, items[p])
    decreases |items| - k
  {
    if k == |items| || MoreImportant(r, items[k]) then k else PlaceFrom(items, r, k + 1)
  }

  function Place(items: seq<Record>, r: Record): (p: nat)
    ensures p <= |items|
  {
    PlaceFrom(items, r, 0)
  }

  function InsertAt<T>(s: seq<T>, p: nat, x: T): (r: seq<T>)
    requires p <= |s|
    ensures |r| == |s| + 1 && r[p] == x
    ensures forall k | 0 <= k < p :: r[k] == s[k]
    ensures forall k | p < k < |r| :: r[k] == s[k - 1]
  {
    seq(|s| + 1, k requires 0 <= k <= |s| => if k < p then s[k] else if k == p then x else s[k - 1])
  }

  function Inserted(items: seq<Record>, r: Record): seq<Record> {
    InsertAt(items, Place(items, r), r)
  }

  /** addRecord: unless a full list's last item is more important, the last item makes room. */
  function Added(capacity: nat, s: Shelf, r: Record, disk: Disk): Shelf
    requires capacity > 0
  {
    var n := |s.items|;
    if n < capacity then
      Shelf(Inserted(s.items, r), s.files + Saved(r, disk))
    else if MoreImportant(s.items[n - 1], r) then s
    else
      Shelf(Inserted(s.items[..n - 1], r), s.files - Deleted(s.items[n - 1], disk) + Saved(r, disk))
  }

  function Saved(r: Record, disk: Disk): set<string> {
    if disk.saves then {r.filename} else {}
  }

  function Deleted(r: Record, disk: Disk): set<string> {
    if disk.deletes then {r.filename} else {}
  }

  class Records {
    const capacity: nat
    var items: seq<Record>
    var files: set<string>

    ghost function View(): Shelf
      reads this
    {
      Shelf(items, files)
    }

    constructor (capacity: nat)
      ensures this.capacity == capacity && View() == Shelf([], {})
    {
      this.capacity := capacity;
      items, files := [], {};
    }

    method AddRecord(incoming: Record, disk: Disk)
      requires capacity > 0
      modifies this
      ensures View() == Added(capacity, old(View()), incoming, disk)
    {
      var roomMade := MakeRoomForRecord(incoming, disk);
      if !roomMade {
        return;
      }
      ghost var others := items;
      var place := FindInsertionPlace(incoming);
      PlaceUnique(items, incoming, place);
      if place == |items| {
        items := items + [incoming];
      } else {
        items := items[..place] + [incoming] + items[place..];
      }
      assert items == Inserted(others, incoming);
      if disk.saves {
        files := files + {incoming.filename};
      }
    }

    method MakeRoomForRecord(incoming: Record, disk: Disk) returns (roomMade: bool)
      requires capacity > 0
      modifies this
      ensures var n := old(|items|);
              if n < capacity then roomMade && View() == old(View())
              else if MoreImportant(old(items)[n - 1], incoming) then !roomMade && View() == old(View())
              else roomMade && View() == Shelf(old(items)[..n - 1], old(files) - Deleted(old(items)[n - 1], disk))
    {
      var capacityReached := |items| >= capacity;
      if capacityReached {
        if MoreImportant(items[|items| - 1], incoming) {
          return false;
        }
        EvictLeastImportant(disk);
      }
      return true;
    }

    method EvictLeastImportant(disk: Disk)
      requires items != []
      modifies this
      ensures var last := old(items)[old(|items|) - 1];
              items + [last] == old(items) && files == old(files) - Deleted(last, disk)
    {
      var leastImportant := items[|items| - 1];
      items := items[..|items| - 1];
      if disk.deletes {
        files := files - {leastImportant.filename};
      }
    }

    method FindInsertionPlace(incoming: Record) returns (place: nat)
      ensures place <= |items|
      ensures forall k | 0 <= k < place :: !MoreImportant(incoming, items[k])
      ensures place < |items| ==> MoreImportant(incoming, items[place])
    {
      place := 0;
      while place < |items|
        invariant place <= |items| && forall k | 0 <= k < place :: !MoreImportant(incoming, items[k])
      {
        if MoreImportant(incoming, items[place]) {
          return;
        }
        place := place + 1;
      }
    }
  }

  lemma PlaceUnique(items: seq<Record>, r: Record, p: nat)
    requires p <= |items| && forall k | 0 <= k < p :: !MoreImportant(r, items[k])
    requires p < |items| ==> MoreImportant(r, items[p])
    ensures p == Place(items, r)
  {
    var q := Place(items, r);
    if q < |items| {
      assert MoreImportant(r, items[q]);
    }
    if p < |items| {
      assert MoreImportant(r, items[p]);
    }
  }

  // ----- what is kept -----

  function Importances(items: seq<Record>): (s: seq<uint64>)
    ensures |s| == |items| && forall k | 0 <= k < |s| :: s[k] == items[k].heapInuse
  {
    seq(|items|, k requires 0 <= k < |items| => items[k].heapInuse)
  }

  ghost predicate Descending(s: seq<uint64>) {
    forall j, k | 0 <= j < k < |s| :: s[j] >= s[k]
  }

  /** Records added one after the other to an empty shelf; shelves[k] is what the first k of them leave. */
  datatype History = History(records: seq<Record>, disks: seq<Disk>, shelves: seq<Shelf>)

  predicate Adds(capacity: nat, h: History, k: nat)
    requires capacity > 0 && k < |h.records| == |h.disks| == |h.shelves| - 1
  {
    h.shelves[k + 1] == Added(capacity, h.shelves[k], h.records[k], h.disks[k])
  }

  ghost predicate IsRun(capacity: nat, h: History) {
    && capacity > 0 && |h.records| == |h.disks| == |h.shelves| - 1
    && h.shelves[0] == Shelf([], {})
    && forall k | 0 <= k < |h.records| :: Adds(capacity, h, k)
  }

  /** The first k elements, or all of them. */
  function First<T>(s: seq<T>, k: nat): seq<T> {
    if |s| <= k then s else s[..k]
  }

  /** p is the place of x in a descending sequence: behind its equals. */
  ghost predicate Fits(s: seq<uint64>, p: nat, x: uint64) {
    && p <= |s| && (forall k | 0 <= k < p :: s[k] >= x) && forall k | p <= k < |s| :: s[k] < x
  }

  lemma FitsDescending(s: seq<uint64>, p: nat, x: uint64)
    requires Descending(s) && Fits(s, p, x)
    ensures Descending(InsertAt(s, p, x))
  {
  }

  lemma PlaceFits(items: seq<Record>, r: Record)
    requires Descending(Importances(items))
    ensures Fits(Importances(items), Place(items, r), r.heapInuse)
  {
    var s, p := Importances(items), Place(items, r);
    forall k | p <= k < |s| ensures s[k] < r.heapInuse {
      assert MoreImportant(r, items[p]);
      assert k > p ==> s[p] >= s[k];
    }
  }

  lemma ImportancesInserted(items: seq<Record>, p: nat, r: Record)
    requires p <= |items|
    ensures Importances(InsertAt(items, p, r)) == InsertAt(Importances(items), p, r.heapInuse)
  {
    var a, b := Importances(InsertAt(items, p, r)), InsertAt(Importances(items), p, r.heapInuse);
    forall k | 0 <= k < |a| ensures a[k] == b[k] {
    }
  }

  /** The best k of a longer ranking, one importance later. */
  lemma BestStep(ranking: seq<uint64>, p: nat, x: uint64, k: nat, q: nat)
    requires Descending(ranking) && Fits(ranking, p, x) && 0 < k <= |ranking| && ranking[k - 1] <= x
    requires Fits(ranking[..k - 1], q, x)
    ensures InsertAt(ranking[..k - 1], q, x) == First(InsertAt(ranking, p, x), k)
  {
    var best := ranking[..k - 1];
    assert p < |best| ==> best[p] == ranking[p];
    assert q < |best| ==> best[q] == ranking[q];
    if p < k - 1 {
      assert q == p;
    } else {
      assert q == k - 1;
      assert p > k - 1 ==> ranking[k - 1] == x;
    }
  }

  lemma InsertAtMultiset(s: seq<uint64>, p: nat, x: uint64)
    requires p <= |s|
    ensures multiset(InsertAt(s, p, x)) == multiset(s) + multiset{x}
  {
    assert InsertAt(s, p, x) == s[..p] + [x] + s[p..];
    assert s == s[..p] + s[p..];
  }

  /** The first n records as an unbounded list would keep them. */
  function Ranked(history: seq<Record>, n: nat): seq<Record>
    requires n <= |history|
  {
    if n == 0 then [] else Inserted(Ranked(history, n - 1), history[n - 1])
  }

  /** A descending arrangement of the importances of the first n records. */
  ghost predicate IsRanking(ranking: seq<uint64>, history: seq<Record>, n: nat)
    requires n <= |history|
  {
    Descending(ranking) && multiset(ranking) == multiset(Importances(history)[..n])
  }

  lemma {:induction false} RankedIsRanking(history: seq<Record>, n: nat)
    requires n <= |history|
    ensures IsRanking(Importances(Ranked(history, n)), history, n)
  {
    if n > 0 {
      RankedIsRanking(history, n - 1);
      RankedOneMore(Ranked(history, n - 1), history, n);
    }
  }

  lemma RankedOneMore(items: seq<Record>, history: seq<Record>, n: nat)
    requires 0 < n <= |history| && IsRanking(Importances(items), history, n - 1)
    ensures IsRanking(Importances(Inserted(items, history[n - 1])), history, n)
  {
    var r, p := history[n - 1], Place(items, history[n - 1]);
    PlaceFits(items, r);
    ImportancesInserted(items, p, r);
    FitsDescending(Importances(items), p, r.heapInuse);
    InsertAtMultiset(Importances(items), p, r.heapInuse);
    assert Importances(history)[..n] == Importances(history)[..n - 1] + [r.heapInuse];
  }

  lemma TailMultiset(s: seq<uint64>)
    requires s != []
    ensures multiset(s[1..]) == multiset(s) - multiset{s[0]}
  {
    assert s == [s[0]] + s[1..];
  }

  lemma HeadIsGreatest(a: seq<uint64>, x: uint64)
    requires Descending(a) && x in multiset(a)
    ensures a != [] && a[0] >= x
  {
    assert x in a;
  }

  lemma HeadAndTail(a: seq<uint64>, b: seq<uint64>)
    requires a != [] && b != [] && a[0] == b[0] && a[1..] == b[1..]
    ensures a == b
  {
    assert a == [a[0]] + a[1..] && b == [b[0]] + b[1..];
  }

  lemma {:induction false} RankingUnique(a: seq<uint64>, b: seq<uint64>)
    requires Descending(a) && Descending(b) && multiset(a) == multiset(b)
    ensures a == b
    decreases |a|
  {
    if a == [] {
      assert b == [] by {
        assert |multiset(b)| == 0;
      }
    } else {
      assert a[0] in multiset(a);
      HeadIsGreatest(b, a[0]);
      assert b[0] in multiset(b);
      HeadIsGreatest(a, b[0]);
      TailMultiset(a);
      TailMultiset(b);
      RankingUnique(a[1..], b[1..]);
      HeadAndTail(a, b);
    }
  }

  lemma {:induction false} KeepsBest(capacity: nat, h: History, n: nat)
    requires IsRun(capacity, h) && n < |h.shelves|
    ensures Importances(h.shelves[n].items) == First(Importances(Ranked(h.records, n)), capacity)
  {
    if n > 0 {
      KeepsBest(capacity, h, n - 1);
      RankedIsRanking(h.records, n - 1);
      OneMore(capacity, Ranked(h.records, n - 1), h.shelves[n - 1], h.records[n - 1], h.disks[n - 1]);
      assert Adds(capacity, h, n - 1);
    }
  }

  lemma OneMore(capacity: nat, ranked: seq<Record>, s: Shelf, r: Record, disk: Disk)
    requires capacity > 0 && Descending(Importances(ranked))
    requires Importances(s.items) == First(Importances(ranked), capacity)
    ensures Importances(Added(capacity, s, r, disk).items) == First(Importances(Inserted(ranked, r)), capacity)
  {
    var ranking, x, n := Importances(ranked), r.heapInuse, |s.items|;
    var p := Place(ranked, r);
    PlaceFits(ranked, r);
    ImportancesInserted(ranked, p, r);
    if n < capacity {
      PlaceFits(s.items, r);
      ImportancesInserted(s.items, Place(s.items, r), r);
      FitsOnce(ranking, p, Place(s.items, r), x);
    } else if MoreImportant(s.items[n - 1], r) {
      assert ranking[n - 1] > x;
      assert First(InsertAt(ranking, p, x), capacity) == ranking[..capacity];
    } else {
      var rest := s.items[..n - 1];
      assert Importances(rest) == ranking[..n - 1];
      PlaceFits(rest, r);
      ImportancesInserted(rest, Place(rest, r), r);
      BestStep(ranking, p, x, capacity, Place(rest, r));
    }
  }

  lemma FitsOnce(s: seq<uint64>, p: nat, q: nat, x: uint64)
    requires Fits(s, p, x) && Fits(s, q, x)
    ensures p == q
  {
    assert p < |s| ==> s[p] < x;
    assert q < |s| ==> s[q] < x;
  }

  /**
   Whatever is added, the importances kept are the first capacity of all those
   seen, sorted in descending order.
   */
  lemma TopK(capacity: nat, h: History, n: nat, ranking: seq<uint64>)
    requires IsRun(capacity, h) && n < |h.shelves| && IsRanking(ranking, h.records, n)
    ensures Importances(h.shelves[n].items) == First(ranking, capacity)
  {
    KeepsBest(capacity, h, n);
    RankedIsRanking(h.records, n);
    RankingUnique(ranking, Importances(Ranked(h.records, n)));
  }

  lemma RunDescending(capacity: nat, h: History, n: nat)
    requires IsRun(capacity, h) && n < |h.shelves|
    ensures Descending(Importances(h.shelves[n].items))
  {
    KeepsBest(capacity, h, n);
    RankedIsRanking(h.records, n);
  }

  // ----- arrival order -----

  /**
   from[k] is when item k arrived, among the first n records: different items
   arrived at different times, equal ones in list order.
   */
  ghost predicate Arrived(items: seq<Record>, history: seq<Record>, n: nat, from: seq<nat>)
    requires n <= |history|
  {
    && |from| == |items|
    && (forall k | 0 <= k < |items| :: from[k] < n && items[k] == history[from[k]])
    && (forall j, k | 0 <= j < k < |items| :: from[j] != from[k])
    && forall j, k | 0 <= j < k < |items| :: items[j].heapInuse == items[k].heapInuse ==> from[j] < from[k]
  }

  lemma ArrivedInserted(items: seq<Record>, history: seq<Record>, n: nat, from: seq<nat>, p: nat)
    requires n < |history| && Arrived(items, history, n, from)
    requires p <= |items| && forall k | p <= k < |items| :: items[k].heapInuse < history[n].heapInuse
    ensures Arrived(InsertAt(items, p, history[n]), history, n + 1, InsertAt(from, p, n))
  {
  }

  lemma ArrivedWithoutLast(items: seq<Record>, history: seq<Record>, n: nat, from: seq<nat>)
    requires n <= |history| && Arrived(items, history, n, from) && items != []
    ensures Arrived(items[..|items| - 1], history, n, from[..|items| - 1])
  {
  }

  lemma ArrivedNext(items: seq<Record>, history: seq<Record>, n: nat, from: seq<nat>) returns (from': seq<nat>)
    requires n < |history| && Arrived(items, history, n, from) && Descending(Importances(items))
    ensures Arrived(Inserted(items, history[n]), history, n + 1, from')
  {
    var p := Place(items, history[n]);
    PlaceFits(items, history[n]);
    forall k | p <= k < |items| ensures items[k].heapInuse < history[n].heapInuse {
      assert Importances(items)[k] < history[n].heapInuse;
    }
    ArrivedInserted(items, history, n, from, p);
    from' := InsertAt(from, p, n);
  }

  lemma ArrivedAdded(capacity: nat, s: Shelf, history: seq<Record>, n: nat, from: seq<nat>, disk: Disk) returns (from': seq<nat>)
    requires capacity > 0 && n < |history| && Arrived(s.items, history, n, from) && Descending(Importances(s.items))
    ensures Arrived(Added(capacity, s, history[n], disk).items, history, n + 1, from')
  {
    var last := |s.items| - 1;
    if |s.items| < capacity {
      from' := ArrivedNext(s.items, history, n, from);
    } else if MoreImportant(s.items[last], history[n]) {
      from' := from;
    } else {
      ArrivedWithoutLast(s.items, history, n, from);
      assert Importances(s.items[..last]) == Importances(s.items)[..last];
      from' := ArrivedNext(s.items[..last], history, n, from[..last]);
    }
  }

  /** Equal records stand in the order they arrived in. */
  lemma {:induction false} ArrivalOrder(capacity: nat, h: History, n: nat) returns (from: seq<nat>)
    requires IsRun(capacity, h) && n < |h.shelves|
    ensures Arrived(h.shelves[n].items, h.records, n, from)
  {
    from := [];
    if n > 0 {
      from := ArrivalOrder(capacity, h, n - 1);
      RunDescending(capacity, h, n - 1);
      from := ArrivedAdded(capacity, h.shelves[n - 1], h.records, n - 1, from, h.disks[n - 1]);
      assert Adds(capacity, h, n - 1);
    }
  }

  // ----- files -----

  function Filenames(items: seq<Record>): set<string> {
    set r | r in items :: r.filename
  }

  const WORKING := Disk(true, true)

  /** A record whose file some other kept record shares is evicted. */
  predicate EvictsShared(capacity: nat, s: Shelf, r: Record)
    requires capacity > 0
  {
    var n := |s.items|;
    && n >= capacity && !MoreImportant(s.items[n - 1], r)
    && s.items[n - 1].filename in Filenames(s.items[..n - 1]) && s.items[n - 1].filename != r.filename
  }

  /**
   On a working disk the files stay those of the listed records, except exactly
   when an eviction deletes a file that a record still listed shares.
   */
  lemma FilesMatchIff(capacity: nat, s: Shelf, r: Record)
    requires capacity > 0 && s.files == Filenames(s.items)
    ensures var s' := Added(capacity, s, r, WORKING);
            s'.files == Filenames(s'.items) <==> !EvictsShared(capacity, s, r)
  {
    var s', n := Added(capacity, s, r, WORKING), |s.items|;
    if n < capacity {
      FilenamesInserted(s.items, r);
    } else if !MoreImportant(s.items[n - 1], r) {
      var rest, last := s.items[..n - 1], s.items[n - 1];
      FilenamesInserted(rest, r);
      assert s.items == rest + [last];
      assert Filenames(s.items) == Filenames(rest) + {last.filename};
      assert s'.files == Filenames(rest) - {last.filename} + {r.filename};
    }
  }

  lemma FilenamesInserted(items: seq<Record>, r: Record)
    ensures Filenames(Inserted(items, r)) == Filenames(items) + {r.filename}
  {
    var p := Place(items, r);
    assert items == items[..p] + items[p..];
    assert Inserted(items, r) == items[..p] + [r] + items[p..];
  }

  ghost predicate DistinctFiles(history: seq<Record>) {
    forall j, k | 0 <= j < k < |history| :: history[j].filename != history[k].filename
  }

  /** When all records have files of their own, the files on a working disk are always those of the listed records. */
  lemma {:induction false} FilesMatch(capacity: nat, h: History, n: nat)
    requires IsRun(capacity, h) && n < |h.shelves| && DistinctFiles(h.records)
    requires forall disk | disk in h.disks :: disk == WORKING
    ensures h.shelves[n].files == Filenames(h.shelves[n].items)
  {
    if n > 0 {
      FilesMatch(capacity, h, n - 1);
      FilesMatchIff(capacity, h.shelves[n - 1], h.records[n - 1]);
      assert h.disks[n - 1] in h.disks;
      var from := ArrivalOrder(capacity, h, n - 1);
      OwnFiles(capacity, h.shelves[n - 1], h.records, n - 1, from);
      assert Adds(capacity, h, n - 1);
    }
  }

  lemma OwnFiles(capacity: nat, s: Shelf, history: seq<Record>, n: nat, from: seq<nat>)
    requires capacity > 0 && n < |history| && DistinctFiles(history) && Arrived(s.items, history, n, from)
    ensures !EvictsShared(capacity, s, history[n])
  {
    var items, m := s.items, |s.items| - 1;
    forall k | 0 <= k < m ensures items[k].filename != items[m].filename {
      assert from[k] != from[m];
      assert history[from[k]].filename != history[from[m]].filename;
    }
  }

  // ----- ties and failing files -----

  /** A full list whose last item is as important as the newcomer loses that item to it, at the end. */
  lemma TieReplacesLast(capacity: nat, s: Shelf, r: Record, disk: Disk)
    requires 0 < capacity == |s.items| && Descending(Importances(s.items))
    requires s.items[|s.items| - 1].heapInuse == r.heapInuse
    ensures Added(capacity, s, r, disk).items == s.items[..|s.items| - 1] + [r]
  {
    var rest := s.items[..|s.items| - 1];
    forall k | 0 <= k < |rest| ensures !MoreImportant(r, rest[k]) {
      assert Importances(s.items)[k] >= Importances(s.items)[|s.items| - 1];
    }
    PlaceUnique(rest, r, |rest|);
    assert InsertAt(rest, |rest|, r) == rest + [r];
  }

  /** A file is there afterwards exactly if it was just saved, or was there and was not deleted. */
  lemma FilesAfter(capacity: nat, s: Shelf, r: Record, disk: Disk, filename: string)
    requires capacity > 0
    ensures var n := |s.items|;
            var kept := n < capacity || s.items[n - 1].heapInuse <= r.heapInuse;
            var evicted := n >= capacity && s.items[n - 1].heapInuse <= r.heapInuse;
            filename in Added(capacity, s, r, disk).files <==>
              || (kept && disk.saves && filename == r.filename)
              || (filename in s.files && !(evicted && disk.deletes && filename == s.items[n - 1].filename))
  {
  }
}
