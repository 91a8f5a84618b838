/**
 The queue of peer ids, a Go slice over a backing array: popping re-slices,
 promoting shifts the tail down in place, pushing grows the array when it is full.
 */
module PidQueues {
  type Pid = string

  const INDEX_NOT_FOUND := -1

  /** The queue without every occurrence of pid. */
  function Without(s: seq<Pid>, pid: Pid): seq<Pid>
    decreases |s|
  {
    if s == [] then []
    else
      var n := |s| - 1;
      Without(s[..n], pid) + if s[n] == pid then [] else [s[n]]
  }

  function Promoted(s: seq<Pid>, idx: int): seq<Pid> {
    if 0 <= idx < |s| then s[..idx] + s[idx + 1..] + [s[idx]] else s
  }

  function DataSize(s: seq<Pid>): nat
    decreases |s|
  {
    if s == [] then 0 else DataSize(s[..|s| - 1]) + |s[|s| - 1]|
  }

  lemma Rotated(s: seq<Pid>, r: seq<Pid>, idx: nat)
    requires idx < |s| == |r| && r[|s| - 1] == s[idx]
    requires forall k | 0 <= k < idx :: r[k] == s[k]
    requires forall k | idx <= k < |s| - 1 :: r[k] == s[k + 1]
    ensures r == Promoted(s, idx)
  {
  }

  class PidQueue {
    // the slice pq.data: len elements of its backing array from start on
    var backing: array<Pid>
    var start: nat
    var len: nat

    ghost predicate Valid()
      reads this
    {
      start + len <= backing.Length
    }

    ghost function Contents(): (s: seq<Pid>)
      reads this, backing
      requires Valid()
      ensures |s| == len
    {
      backing[start..start + len]
    }

    constructor ()
      ensures Valid() && fresh(backing) && Contents() == []
    {
      backing := new Pid[0];
      start, len := 0, 0;
    }

    /** append of one element; a full array is replaced by one with spare more places than are needed. */
    method Push(pid: Pid, spare: nat)
      requires Valid()
      modifies this, backing
      ensures Valid() && (backing == old(backing) || fresh(backing))
      ensures Contents() == old(Contents()) + [pid]
    {
      if start + len == backing.Length {
        var grown := new Pid[len + 1 + spare];
        forall k | 0 <= k < len {
          grown[k] := backing[start + k];
        }
        assert grown[..len] == Contents();
        backing, start := grown, 0;
      }
      backing[start + len] := pid;
      len := len + 1;
    }

    method Pop() returns (evicted: Pid)
      requires Valid()
      modifies `start, `len
      ensures Valid()
      ensures if old(Contents()) == [] then evicted == "" && Contents() == []
              else [evicted] + Contents() == old(Contents())
    {
      if len == 0 {
        return "";
      }
      evicted := backing[start];
      start, len := start + 1, len - 1;
    }

    method IndexOf(pid: Pid) returns (idx: int)
      requires Valid()
      ensures if pid in Contents() then 0 <= idx < len && Contents()[idx] == pid && pid !in Contents()[..idx]
              else idx == INDEX_NOT_FOUND
    {
      for k := 0 to len
        invariant pid !in Contents()[..k]
      {
        if backing[start + k] == pid {
          return k;
        }
      }
      return INDEX_NOT_FOUND;
    }

    /** Both appends stay within the backing array: the first shifts the tail down, the second fills the freed place. */
    method Promote(idx: int)
      requires Valid()
      modifies backing
      ensures Valid() && Contents() == Promoted(old(Contents()), idx)
    {
      if len < 2 || idx < 0 || idx >= len {
        assert len < 2 && 0 <= idx < len ==> Promoted(Contents(), idx) == Contents();
        return;
      }
      var promoted := backing[start + idx];
      for p := start + idx to start + len - 1
        invariant forall q | start <= q < start + idx :: backing[q] == old(backing[q])
        invariant forall q | start + idx <= q < p :: backing[q] == old(backing[q + 1])
        invariant forall q | p <= q < start + len :: backing[q] == old(backing[q])
      {
        backing[p] := backing[p + 1];
      }
      backing[start + len - 1] := promoted;
      Rotated(old(Contents()), Contents(), idx);
    }

    method Remove(pid: Pid)
      requires Valid()
      modifies this
      ensures Valid() && fresh(backing) && Contents() == Without(old(Contents()), pid)
    {
      var newData := new Pid[len];
      var n := 0;
      for k := 0 to len
        invariant unchanged(this) && unchanged(backing)
        invariant 0 <= n <= k && newData[..n] == Without(Contents()[..k], pid)
      {
        assert Contents()[..k + 1][..k] == Contents()[..k];
        if backing[start + k] != pid {
          newData[n] := backing[start + k];
          n := n + 1;
        }
      }
      assert Contents()[..len] == Contents();
      backing, start, len := newData, 0, n;
    }

    method DataSizeInBytes() returns (sum: nat)
      requires Valid()
      ensures sum == DataSize(Contents())
    {
      sum := 0;
      for k := 0 to len
        invariant sum == DataSize(Contents()[..k])
      {
        assert Contents()[..k + 1][..k] == Contents()[..k];
        sum := sum + |backing[start + k]|;
      }
      assert Contents()[..len] == Contents();
    }
  }

  // ----- laws -----

  lemma {:induction false} DataSizeConcat(a: seq<Pid>, b: seq<Pid>)
    ensures DataSize(a + b) == DataSize(a) + DataSize(b)
    decreases |b|
  {
    if b == [] {
      assert a + b == a;
    } else {
      var n := |b| - 1;
      assert (a + b)[..|a + b| - 1] == a + b[..n];
      DataSizeConcat(a, b[..n]);
    }
  }

  /** Promoting keeps every element, hence the size. */
  lemma PromoteConserves(s: seq<Pid>, idx: int)
    ensures multiset(Promoted(s, idx)) == multiset(s) && DataSize(Promoted(s, idx)) == DataSize(s)
  {
    if 0 <= idx < |s| {
      var a, x, b := s[..idx], [s[idx]], s[idx + 1..];
      assert s == a + x + b;
      DataSizeConcat(a + b, x);
      DataSizeConcat(a, b);
      DataSizeConcat(a + x, b);
      DataSizeConcat(a, x);
    }
  }

  /** What Remove leaves keeps its order: it works part by part, and on one element it is plain. */
  lemma {:induction false} RemoveKeepsOrder(a: seq<Pid>, b: seq<Pid>, pid: Pid)
    ensures Without(a + b, pid) == Without(a, pid) + Without(b, pid)
    decreases |b|
  {
    if b == [] {
      assert a + b == a;
    } else {
      var n := |b| - 1;
      assert (a + b)[..|a + b| - 1] == a + b[..n];
      RemoveKeepsOrder(a, b[..n], pid);
    }
  }

  lemma RemoveFromOne(p: Pid, pid: Pid)
    ensures Without([p], pid) == if p == pid then [] else [p]
  {
    assert Without([p][..0], pid) == [];
  }

  /** Promoting puts the element last and leaves the others in their order. */
  lemma PromotedAt(a: seq<Pid>, p: Pid, b: seq<Pid>)
    ensures Promoted(a + [p] + b, |a|) == a + b + [p]
  {
    var s := a + [p] + b;
    assert s[..|a|] == a && s[|a| + 1..] == b && s[|a|] == p;
  }

  /** Removing takes exactly the occurrences of pid. */
  lemma {:induction false} RemoveTakesAll(s: seq<Pid>, pid: Pid)
    ensures multiset(Without(s, pid)) == multiset(s)[pid := 0]
    decreases |s|
  {
    if s != [] {
      var n := |s| - 1;
      RemoveTakesAll(s[..n], pid);
      assert s == s[..n] + [s[n]];
      assert multiset(s) == multiset(s[..n]) + multiset{s[n]};
      if s[n] == pid {
        assert Without(s, pid) == Without(s[..n], pid);
      } else {
        assert multiset(Without(s, pid)) == multiset(Without(s[..n], pid)) + multiset{s[n]};
      }
    }
  }

  /** It frees the bytes of those occurrences. */
  lemma {:induction false} RemoveFrees(s: seq<Pid>, pid: Pid)
    ensures DataSize(Without(s, pid)) + multiset(s)[pid] * |pid| == DataSize(s)
    decreases |s|
  {
    if s != [] {
      var n := |s| - 1;
      var rest := Without(s[..n], pid);
      RemoveFrees(s[..n], pid);
      assert s == s[..n] + [s[n]];
      assert multiset(s)[pid] == multiset(s[..n])[pid] + if s[n] == pid then 1 else 0;
      if s[n] == pid {
        OneMore(multiset(s[..n])[pid], |pid|);
        assert Without(s, pid) == rest;
      } else {
        assert Without(s, pid)[..|rest|] == rest;
      }
    }
  }

  lemma OneMore(n: nat, size: nat)
    ensures (n + 1) * size == n * size + size
  {
  }

  datatype Call = Push(pid: Pid) | Pop

  /** The queue and everything popped after a run of pushes and pops. */
  function Run(s: seq<Pid>, popped: seq<Pid>, calls: seq<Call>): (seq<Pid>, seq<Pid>)
    decreases |calls|
  {
    if calls == [] then (s, popped)
    else
      match calls[0]
      case Push(pid) => Run(s + [pid], popped, calls[1..])
      case Pop => if s == [] then Run(s, popped, calls[1..]) else Run(s[1..], popped + [s[0]], calls[1..])
  }

  function Pushed(calls: seq<Call>): seq<Pid> {
    if calls == [] then [] else (if calls[0].Push? then [calls[0].pid] else []) + Pushed(calls[1..])
  }

  /** First in, first out: what was popped, then what is left, is what was there, then what was pushed. */
  lemma {:induction false} FirstInFirstOut(s: seq<Pid>, popped: seq<Pid>, calls: seq<Call>)
    ensures var (left, out) := Run(s, popped, calls); out + left == popped + s + Pushed(calls)
    decreases |calls|
  {
    if calls != [] {
      var rest := Pushed(calls[1..]);
      if calls[0].Push? {
        FirstInFirstOut(s + [calls[0].pid], popped, calls[1..]);
        assert popped + (s + [calls[0].pid]) + rest == popped + s + ([calls[0].pid] + rest);
      } else if s == [] {
        FirstInFirstOut(s, popped, calls[1..]);
      } else {
        FirstInFirstOut(s[1..], popped + [s[0]], calls[1..]);
        assert popped + [s[0]] + s[1..] == popped + s;
      }
    }
  }
}
