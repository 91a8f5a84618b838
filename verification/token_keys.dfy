/**
 Storage keys of tokens: a ticker, a hyphen, a random sequence and, for
 non-fungible tokens, the bytes of a nonce.
 */
module TokenKeys {
  import opened Bits

  const HYPHEN: byte := 45
  const MIN_TICKER := 3
  const MAX_TICKER := 10
  const RANDOM_CHARS := 6

  /** The position of the first hyphen from k on, or the length if there is none. */
  function FirstHyphen(key: seq<byte>, k: nat): (i: nat)
    requires k <= |key|
    ensures k <= i <= |key| && (i < |key| ==> key[i] == HYPHEN)
    ensures forall j | k <= j < i :: key[j] != HYPHEN
    decreases |key| - k
  {
    if k == |key| || key[k] == HYPHEN then k else FirstHyphen(key, k + 1)
  }

  /** big.Int SetBytes: the value of big-endian bytes. */
  function BigEndian(bytes: seq<byte>): nat {
    if bytes == [] then 0
    else
      var n := |bytes| - 1;
      256 * BigEndian(bytes[..n]) + bytes[n]
  }

  /** big.Int Bytes: the fewest big-endian bytes, none for 0. */
  function NonceBytes(nonce: nat): seq<byte> {
    if nonce == 0 then [] else NonceBytes(nonce / 256) + [nonce % 256]
  }

  /** Where the nonce starts; the length if the key has none. */
  function NonceStart(key: seq<byte>): (start: nat)
    ensures start <= |key|
  {
    var i := FirstHyphen(key, 0);
    if i < |key| && MIN_TICKER <= i <= MAX_TICKER && |key| > i + 1 + RANDOM_CHARS then i + 1 + RANDOM_CHARS else |key|
  }

  /** The identifier and the nonce; Uint64 keeps the low 64 bits of a longer nonce. */
  function ExtractTokenIDAndNonceFromTokenStorageKey(tokenKey: seq<byte>): (r: (seq<byte>, uint64)) {
    var indexOfFirstHyphen := FirstHyphen(tokenKey, 0);
    if indexOfFirstHyphen == |tokenKey| then (tokenKey, 0)
    else
      var tokenTicker := tokenKey[..indexOfFirstHyphen];
      var randomSequencePlusNonce := tokenKey[indexOfFirstHyphen + 1..];
      if |tokenTicker| < MIN_TICKER || |tokenTicker| > MAX_TICKER || randomSequencePlusNonce == [] then (tokenKey, 0)
      else if |randomSequencePlusNonce| < RANDOM_CHARS + 1 then (tokenKey, 0)
      else
        var nonceStr := randomSequencePlusNonce[RANDOM_CHARS..];
        (tokenKey[..|tokenKey| - |nonceStr|], BigEndian(nonceStr) % TWO_64)
  }

  /** What is extracted splits the key: the identifier is a prefix, the nonce is read from the rest. */
  lemma ExtractSplits(key: seq<byte>)
    ensures var (id, nonce) := ExtractTokenIDAndNonceFromTokenStorageKey(key);
            id == key[..NonceStart(key)] && nonce == BigEndian(key[NonceStart(key)..]) % TWO_64
  {
    var i := FirstHyphen(key, 0);
    if NonceStart(key) < |key| {
      assert key[i + 1..][RANDOM_CHARS..] == key[NonceStart(key)..];
    } else {
      assert key[|key|..] == [] && key[..|key|] == key;
    }
  }

  lemma FirstHyphenAt(key: seq<byte>, i: nat)
    requires i < |key| && key[i] == HYPHEN && forall j | 0 <= j < i :: key[j] != HYPHEN
    ensures FirstHyphen(key, 0) == i
  {
    var found := FirstHyphen(key, 0);
    assert key[i] == HYPHEN;
    if found < |key| {
      assert key[found] == HYPHEN;
    }
  }

  lemma {:induction false} NonceBytesValue(nonce: nat)
    ensures BigEndian(NonceBytes(nonce)) == nonce
    ensures nonce > 0 ==> NonceBytes(nonce) != [] && NonceBytes(nonce)[0] != 0
    decreases nonce
  {
    if nonce > 0 {
      NonceBytesValue(nonce / 256);
      assert NonceBytes(nonce)[..|NonceBytes(nonce)| - 1] == NonceBytes(nonce / 256);
    }
  }

  lemma NonceAfter(key: seq<byte>, start: nat, bytes: seq<byte>, nonce: uint64)
    requires NonceStart(key) == start && key[start..] == bytes && BigEndian(bytes) == nonce
    ensures ExtractTokenIDAndNonceFromTokenStorageKey(key) == (key[..start], nonce)
  {
    ExtractSplits(key);
  }

  /** A token's key is split back into its identifier and its nonce, whatever bytes the nonce and the sequence have. */
  lemma TokenRoundTrip(ticker: seq<byte>, random: seq<byte>, nonce: uint64)
    requires 3 <= |ticker| <= 10 && |random| == 6 && forall k | 0 <= k < |ticker| :: ticker[k] as char != '-'
    ensures var id := ticker + ['-' as byte] + random;
            ExtractTokenIDAndNonceFromTokenStorageKey(id + NonceBytes(nonce)) == (id, nonce)
  {
    var id, bytes := ticker + ['-' as byte] + random, NonceBytes(nonce);
    var key := id + bytes;
    assert key[..|id|] == id && key[|id|..] == bytes;
    assert key[|ticker|] == HYPHEN;
    forall j | 0 <= j < |ticker| ensures key[j] != HYPHEN {
      assert key[j] == ticker[j] && ticker[j] as char != '-';
    }
    FirstHyphenAt(key, |ticker|);
    NonceBytesValue(nonce);
    NonceAfter(key, |id|, bytes, nonce);
  }

  /** A nonce is split off exactly if the first hyphen stands at 3 to 10 and at least seven bytes follow it: after six of them. */
  lemma NonceStartIff(key: seq<byte>, i: nat)
    requires i < |key| && key[i] as char == '-' && forall j | 0 <= j < i :: key[j] as char != '-'
    ensures NonceStart(key) == if 3 <= i <= 10 && |key| - (i + 1) >= 7 then i + 7 else |key|
  {
    forall j | 0 <= j < i ensures key[j] != HYPHEN {
      assert key[j] as char != '-';
    }
    FirstHyphenAt(key, i);
  }

  lemma NoHyphenNoNonce(key: seq<byte>)
    requires forall j | 0 <= j < |key| :: key[j] as char != '-'
    ensures NonceStart(key) == |key|
  {
    forall j | 0 <= j < |key| ensures key[j] != HYPHEN {
      assert key[j] as char != '-';
    }
  }

  // ----- any key at all -----

  function Pow256(n: nat): (p: nat)
    ensures p > 0
  {
    if n == 0 then 1 else 256 * Pow256(n - 1)
  }

  /** The first byte is the most significant. */
  lemma {:induction false} BigEndianFirst(b: byte, rest: seq<byte>)
    ensures BigEndian([b] + rest) == b * Pow256(|rest|) + BigEndian(rest)
    decreases |rest|
  {
    var all := [b] + rest;
    if rest == [] {
      assert all[..0] == [];
    } else {
      var n := |rest| - 1;
      assert all[..|all| - 1] == [b] + rest[..n];
      BigEndianFirst(b, rest[..n]);
      Spread(b, Pow256(n));
    }
  }

  lemma Spread(b: nat, p: nat)
    ensures 256 * (b * p) == b * (256 * p)
  {
  }

  lemma {:induction false} BigEndianBounds(bytes: seq<byte>)
    ensures BigEndian(bytes) < Pow256(|bytes|)
    ensures bytes != [] && bytes[0] != 0 ==> BigEndian(bytes) >= Pow256(|bytes| - 1)
    decreases |bytes|
  {
    if bytes != [] {
      BigEndianBounds(bytes[..|bytes| - 1]);
    }
  }

  /** Bytes are those of their value exactly when they have no leading zero. */
  lemma {:induction false} MinimalIff(bytes: seq<byte>)
    ensures NonceBytes(BigEndian(bytes)) == bytes <==> (bytes == [] || bytes[0] != 0)
    decreases |bytes|
  {
    var value := BigEndian(bytes);
    NonceBytesValue(value);
    if bytes != [] && bytes[0] != 0 {
      var n := |bytes| - 1;
      assert value / 256 == BigEndian(bytes[..n]) && value % 256 == bytes[n];
      MinimalIff(bytes[..n]);
      BigEndianBounds(bytes);
      assert bytes == bytes[..n] + [bytes[n]];
    }
  }

  lemma {:induction false} Pow256Grows(m: nat, n: nat)
    requires m <= n
    ensures Pow256(m) <= Pow256(n)
    decreases n
  {
    if m < n {
      Pow256Grows(m, n - 1);
    }
  }

  lemma NonceFitsIff(bytes: seq<byte>)
    requires bytes != [] && bytes[0] != 0
    ensures BigEndian(bytes) < TWO_64 <==> |bytes| <= 8
  {
    assert Pow256(8) == TWO_64 by {
      assert Pow256(4) == TWO_32;
    }
    BigEndianBounds(bytes);
    if |bytes| <= 8 {
      Pow256Grows(|bytes|, 8);
    } else {
      Pow256Grows(8, |bytes| - 1);
    }
  }

  /**
   Putting what was extracted together again gives the key back exactly when the
   bytes read as a nonce have no leading zero and are at most 8.
   */
  lemma RejoinIff(key: seq<byte>)
    ensures var (id, nonce) := ExtractTokenIDAndNonceFromTokenStorageKey(key);
            var rest := key[NonceStart(key)..];
            id + NonceBytes(nonce) == key <==> (rest == [] || (rest[0] != 0 && |rest| <= 8))
  {
    ExtractSplits(key);
    var id, rest := key[..NonceStart(key)], key[NonceStart(key)..];
    assert key == id + rest;
    var value := BigEndian(rest);
    var nonce := value % TWO_64;
    CutToUint64(value);
    NonceKeptIff(rest, value, nonce);
    Suffix(id, NonceBytes(nonce), rest);
  }

  lemma CutToUint64(value: nat)
    ensures value % TWO_64 == value <==> value < TWO_64
  {
  }

  /** kept is value cut to 64 bits. */
  lemma NonceKeptIff(bytes: seq<byte>, value: nat, kept: nat)
    requires value == BigEndian(bytes) && (kept == value <==> value < TWO_64)
    ensures NonceBytes(kept) == bytes <==> (bytes == [] || (bytes[0] != 0 && |bytes| <= 8))
  {
    if bytes != [] && bytes[0] != 0 {
      MinimalIff(bytes);
      NonceFitsIff(bytes);
    }
    NonceBytesValue(kept);
  }

  lemma Suffix(a: seq<byte>, b: seq<byte>, c: seq<byte>)
    ensures a + b == a + c <==> b == c
  {
    if a + b == a + c {
      assert b == (a + b)[|a|..] && c == (a + c)[|a|..];
    }
  }
}
