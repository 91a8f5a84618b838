/** Hashes of blocks, miniblocks, transactions and results, and lists of them. */
module Hashes {
  import opened Bits

  type Hash = seq<byte>

  /** order lists a set, each element once: one order in which an iteration over it may go. */
  ghost predicate Enumerates(order: seq<Hash>, hashes: set<Hash>) {
    && (forall hash :: hash in order <==> hash in hashes)
    && forall j, k | 0 <= j < k < |order| :: order[j] != order[k]
  }

  /** There is always one. */
  lemma {:induction false} Enumeration(hashes: set<Hash>) returns (order: seq<Hash>)
    ensures Enumerates(order, hashes)
    decreases hashes
  {
    order := [];
    if hashes != {} {
      var hash :| hash in hashes;
      var rest := Enumeration(hashes - {hash});
      order := [hash] + rest;
    }
  }
}
