/**
 The repository's stores as bytes. Metadata and epochs are kept marshalled;
 whatever the repository does to values it does, through the codecs, to the
 bytes that represent them.
 */
module StoredBytes {
  import opened Bits
  import opened Varint
  import opened Wire
  import opened Hashes
  import opened History
  import opened MiniblockMetadataCodec
  import opened FlatMessages
  import U = UnknownFields
  import opened WireBuffer
  import opened WireRoundTrip

  /** The message a metadata value is stored as; the deprecated status stays empty. */
  function MetadataMessage(m: Metadata): (r: Message)
    ensures ValidMessage(METADATA_FIELDS, r)
  {
    Message([
      Scalar(m.sourceShard), Scalar(m.destinationShard), Scalar(m.round), Scalar(m.headerNonce),
      Blob(m.headerHash), Blob(m.miniblockHash), Blob([]), Scalar(m.epoch),
      Scalar(m.atSource.metaNonce), Scalar(m.atDestination.metaNonce),
      Blob(m.atSource.metaHash), Blob(m.atDestination.metaHash), Scalar(m.miniblockType)
    ])
  }

  /** The metadata a message stands for. */
  function MessageMetadata(r: Message): Metadata
    requires ValidMessage(METADATA_FIELDS, r)
  {
    var v := r.values;
    assert forall k | 0 <= k < 13 :: ValidValue(METADATA_FIELDS[k], v[k]);
    Metadata(v[12].n, v[7].n, v[4].bytes, v[5].bytes, v[2].n, v[3].n, v[0].n, v[1].n,
             Coordinates(v[8].n, v[10].bytes), Coordinates(v[9].n, v[11].bytes))
  }

  function EpochMessage(epoch: uint32): (r: Message)
    ensures ValidMessage(EPOCH_BY_HASH, r)
  {
    Message([Scalar(epoch)])
  }

  /** Nothing of a metadata value is lost in its message. */
  lemma MetadataOfMessage(m: Metadata)
    ensures MessageMetadata(MetadataMessage(m)) == m
  {
  }

  datatype ByteStores = ByteStores(epochs: map<Hash, seq<byte>>, metadata: map<Key, seq<byte>>)

  predicate EpochBytes(bytes: seq<byte>, epoch: uint32) {
    |bytes| < TWO_63 && Decode(EPOCH_BY_HASH, ZeroMessage(EPOCH_BY_HASH), bytes) == Decoded(EpochMessage(epoch))
  }

  predicate MetadataBytes(bytes: seq<byte>, m: Metadata) {
    |bytes| < TWO_63 && Decode(METADATA_FIELDS, ZeroMessage(METADATA_FIELDS), bytes) == Decoded(MetadataMessage(m))
  }

  /** The bytes stored under every key decode to the value stored under it. */
  ghost predicate Represents(bs: ByteStores, st: Stores) {
    && bs.epochs.Keys == st.epochByHash.Keys && bs.metadata.Keys == st.metadata.Keys
    && (forall hash | hash in st.epochByHash :: EpochBytes(bs.epochs[hash], st.epochByHash[hash]))
    && (forall key | key in st.metadata :: MetadataBytes(bs.metadata[key], st.metadata[key]))
  }

  // ----- the operations on bytes -----

  function SaveEpochBytes(bs: ByteStores, hash: Hash, epoch: uint32): ByteStores {
    bs.(epochs := bs.epochs[hash := Encode(EPOCH_BY_HASH, EpochMessage(epoch))])
  }

  function PutMetadataBytes(bs: ByteStores, hash: Hash, m: Metadata): ByteStores {
    bs.(metadata := bs.metadata[(hash, m.epoch) := Encode(METADATA_FIELDS, MetadataMessage(m))])
  }

  datatype Loaded = Loaded(m: Metadata) | Missing

  /** getMiniblockMetadataByMiniblockHash: the epoch first, then the metadata in that epoch's partition. */
  function LoadMetadata(bs: ByteStores, hash: Hash): Loaded
    requires forall h | h in bs.epochs :: |bs.epochs[h]| < TWO_63
    requires forall key | key in bs.metadata :: |bs.metadata[key]| < TWO_63
  {
    if hash !in bs.epochs then Missing
    else
      match Decode(EPOCH_BY_HASH, ZeroMessage(EPOCH_BY_HASH), bs.epochs[hash])
      case Failed(_) => Missing
      case Decoded(e) =>
        assert ValidValue(EPOCH_BY_HASH[0], e.values[0]);
        var key := (hash, e.values[0].n);
        if key !in bs.metadata then Missing
        else
          match Decode(METADATA_FIELDS, ZeroMessage(METADATA_FIELDS), bs.metadata[key])
          case Failed(_) => Missing
          case Decoded(m) => Loaded(MessageMetadata(m))
  }

  // ----- they are the operations on values -----

  lemma EpochBytesWritten(epoch: uint32)
    ensures EpochBytes(Encode(EPOCH_BY_HASH, EpochMessage(epoch)), epoch)
  {
    var m := EpochMessage(epoch);
    assert ToUint64(epoch) == epoch;
    assert Pow2(35) > TWO_32 by {
      Pow2Widths(32);
      assert Pow2(33) == 2 * Pow2(32) && Pow2(34) == 2 * Pow2(33) && Pow2(35) == 2 * Pow2(34);
    }
    EncodeVarintShort(epoch, 5);
    TagIsByte(1, U.VARINT);
    assert EncodeFrom(EPOCH_BY_HASH, m, 1) == [];
    var field := EncodeField(1, Uint32, Scalar(epoch));
    assert |field| <= 6;
    assert Encode(EPOCH_BY_HASH, m) == field + [] by {
      assert m.values[0] == Scalar(epoch) && EPOCH_BY_HASH[0] == Uint32;
    }
    RoundTrip(EPOCH_BY_HASH, m);
  }

  lemma SaveEpochRepresents(bs: ByteStores, st: Stores, hash: Hash, epoch: uint32)
    requires Represents(bs, st)
    ensures Represents(SaveEpochBytes(bs, hash, epoch), SaveEpoch(st, hash, epoch))
  {
    EpochBytesWritten(epoch);
  }

  lemma PutMetadataRepresents(bs: ByteStores, st: Stores, hash: Hash, m: Metadata)
    requires Represents(bs, st) && |Encode(METADATA_FIELDS, MetadataMessage(m))| < TWO_63
    ensures Represents(PutMetadataBytes(bs, hash, m), PutMetadata(st, hash, m))
  {
    MetadataRoundTrip(MetadataMessage(m));
  }

  /** A lookup in the bytes finds exactly what a lookup in the values finds. */
  lemma LoadsWhatIsStored(bs: ByteStores, st: Stores, hash: Hash)
    requires Represents(bs, st)
    ensures forall h | h in bs.epochs :: |bs.epochs[h]| < TWO_63
    ensures forall key | key in bs.metadata :: |bs.metadata[key]| < TWO_63
    ensures LoadMetadata(bs, hash) ==
            if Found(st, hash) then Loaded(st.metadata[(hash, st.epochByHash[hash])]) else Missing
  {
    forall h | h in bs.epochs ensures |bs.epochs[h]| < TWO_63 {
      assert EpochBytes(bs.epochs[h], st.epochByHash[h]);
    }
    forall key | key in bs.metadata ensures |bs.metadata[key]| < TWO_63 {
      assert MetadataBytes(bs.metadata[key], st.metadata[key]);
    }
    if hash in st.epochByHash {
      var key := (hash, st.epochByHash[hash]);
      assert EpochBytes(bs.epochs[hash], key.1);
      if key in st.metadata {
        assert MetadataBytes(bs.metadata[key], st.metadata[key]);
        MetadataOfMessage(st.metadata[key]);
      }
    }
  }
}
