/**
 Every message of the generated files, byte by byte: each field by its name,
 under the tag byte that its generated writer stores, in that order.
 */
module WireTables {
  import opened Bits
  import opened Varint
  import opened Wire
  import opened WireLayout
  import opened History
  import R = ResultsHashes
  import C = MiniblockMetadataCodec
  import opened FlatMessages
  import StoredBytes

  lemma GroupBytes(group: R.ScResultsHashesAndEpoch)
    ensures Encode(R.GROUP_FIELDS, group.View()) == Join([Number(0x08, group.epoch), Pieces(0x12, group.scResultsHashes)])
  {
    var m, parts := group.View(), [Number(0x08, group.epoch), Pieces(0x12, group.scResultsHashes)];
    ScalarBytes(1, Uint32, group.epoch);
    BlobsBytes(2, group.scResultsHashes);
    MessageBytes(R.GROUP_FIELDS, m, parts);
  }

  lemma RecordBytes(record: R.ResultsHashesByTxHash)
    ensures Encode(R.RECORD_FIELDS, record.View()) ==
            Join([Text(0x0a, record.receiptsHash),
                  Pieces(0x12, Encodings(R.GROUP_FIELDS, R.Views(record.scResultsHashesAndEpoch)))])
  {
    var groups := R.Views(record.scResultsHashesAndEpoch);
    var m, parts := record.View(), [Text(0x0a, record.receiptsHash), Pieces(0x12, Encodings(R.GROUP_FIELDS, groups))];
    BlobBytes(1, record.receiptsHash);
    MessagesBytes(2, R.GROUP_FIELDS, groups);
    MessageBytes(R.RECORD_FIELDS, m, parts);
  }

  lemma MetadataBytes(x: C.MiniblockMetadata)
    ensures Encode(C.METADATA_FIELDS, x.View()) ==
            Join([Number(0x08, x.sourceShardID), Number(0x10, x.destinationShardID),
                  Number(0x18, x.round), Number(0x20, x.headerNonce),
                  Text(0x2a, x.headerHash), Text(0x32, x.miniblockHash), Text(0x3a, x.deprecatedStatus),
                  Number(0x40, x.epoch),
                  Number(0x48, x.notarizedAtSourceInMetaNonce), Number(0x50, x.notarizedAtDestinationInMetaNonce),
                  Text(0x5a, x.notarizedAtSourceInMetaHash), Text(0x62, x.notarizedAtDestinationInMetaHash),
                  Number(0x68, Word64(x.miniblockType))])
  {
    MetadataMessageBytes(x.View(), x.sourceShardID, x.destinationShardID, x.round, x.headerNonce, x.headerHash,
                         x.miniblockHash, x.deprecatedStatus, x.epoch, x.notarizedAtSourceInMetaNonce,
                         x.notarizedAtDestinationInMetaNonce, x.notarizedAtSourceInMetaHash,
                         x.notarizedAtDestinationInMetaHash, x.miniblockType);
  }

  lemma MetadataMessageBytes(m: Message, n1: uint32, n2: uint32, n3: uint64, n4: uint64, s5: seq<byte>, s6: seq<byte>,
                             s7: seq<byte>, n8: uint32, n9: uint64, n10: uint64, s11: seq<byte>, s12: seq<byte>, n13: int32)
    requires m == Message([Scalar(n1), Scalar(n2), Scalar(n3), Scalar(n4), Blob(s5), Blob(s6), Blob(s7),
                           Scalar(n8), Scalar(n9), Scalar(n10), Blob(s11), Blob(s12), Scalar(n13)])
    requires ValidMessage(C.METADATA_FIELDS, m)
    ensures Encode(C.METADATA_FIELDS, m) ==
            Join([Number(0x08, n1), Number(0x10, n2), Number(0x18, n3), Number(0x20, n4),
                  Text(0x2a, s5), Text(0x32, s6), Text(0x3a, s7), Number(0x40, n8),
                  Number(0x48, n9), Number(0x50, n10), Text(0x5a, s11), Text(0x62, s12), Number(0x68, Word64(n13))])
  {
    C.Kinds();
    var parts := [Number(0x08, n1), Number(0x10, n2), Number(0x18, n3), Number(0x20, n4),
                  Text(0x2a, s5), Text(0x32, s6), Text(0x3a, s7), Number(0x40, n8),
                  Number(0x48, n9), Number(0x50, n10), Text(0x5a, s11), Text(0x62, s12), Number(0x68, Word64(n13))];
    forall k | 0 <= k < 13 ensures IsFlat(m.values[k]) && parts[k] == FlatPart(k + 1, m.values[k]) {
    }
    FlatBytes(C.METADATA_FIELDS, m, parts);
  }

  /** The repository's metadata values are stored under the same tags. */
  lemma StoredMetadataBytes(m: Metadata)
    ensures Encode(C.METADATA_FIELDS, StoredBytes.MetadataMessage(m)) ==
            Join([Number(0x08, m.sourceShard), Number(0x10, m.destinationShard),
                  Number(0x18, m.round), Number(0x20, m.headerNonce),
                  Text(0x2a, m.headerHash), Text(0x32, m.miniblockHash), Text(0x3a, []), Number(0x40, m.epoch),
                  Number(0x48, m.atSource.metaNonce), Number(0x50, m.atDestination.metaNonce),
                  Text(0x5a, m.atSource.metaHash), Text(0x62, m.atDestination.metaHash),
                  Number(0x68, Word64(m.miniblockType))])
  {
    MetadataMessageBytes(StoredBytes.MetadataMessage(m), m.sourceShard, m.destinationShard, m.round, m.headerNonce,
                         m.headerHash, m.miniblockHash, [], m.epoch, m.atSource.metaNonce, m.atDestination.metaNonce,
                         m.atSource.metaHash, m.atDestination.metaHash, m.miniblockType);
  }

  lemma EpochByHashBytes(epoch: uint32)
    ensures Encode(EPOCH_BY_HASH, StoredBytes.EpochMessage(epoch)) == if epoch == 0 then [] else [0x08] + EncodeVarint(epoch)
  {
    var parts := [Number(0x08, epoch)];
    FlatBytes(EPOCH_BY_HASH, StoredBytes.EpochMessage(epoch), parts);
    assert parts[1..] == [];
    assert PartBytes(parts[0]) + [] == PartBytes(parts[0]);
  }

  lemma ConsensusMessageBytes(
      blockHeaderHash: seq<byte>, signatureShare: seq<byte>, body: seq<byte>, header: seq<byte>, pubKey: seq<byte>,
      signature: seq<byte>, msgType: int64, roundIndex: int64, chainID: seq<byte>, pubKeysBitmap: seq<byte>,
      aggregateSignature: seq<byte>, leaderSignature: seq<byte>, originatorPid: seq<byte>, invalidSigners: seq<byte>)
    ensures var m := Message([Blob(blockHeaderHash), Blob(signatureShare), Blob(body), Blob(header), Blob(pubKey),
                              Blob(signature), Scalar(msgType), Scalar(roundIndex), Blob(chainID), Blob(pubKeysBitmap),
                              Blob(aggregateSignature), Blob(leaderSignature), Blob(originatorPid), Blob(invalidSigners)]);
            ValidMessage(CONSENSUS_MESSAGE, m) &&
            Encode(CONSENSUS_MESSAGE, m) ==
            Join([Text(0x0a, blockHeaderHash), Text(0x12, signatureShare), Text(0x1a, body), Text(0x22, header),
                  Text(0x2a, pubKey), Text(0x32, signature), Number(0x38, Word64(msgType)), Number(0x40, Word64(roundIndex)),
                  Text(0x4a, chainID), Text(0x52, pubKeysBitmap), Text(0x5a, aggregateSignature),
                  Text(0x62, leaderSignature), Text(0x6a, originatorPid), Text(0x72, invalidSigners)])
  {
    var m := Message([Blob(blockHeaderHash), Blob(signatureShare), Blob(body), Blob(header), Blob(pubKey),
                      Blob(signature), Scalar(msgType), Scalar(roundIndex), Blob(chainID), Blob(pubKeysBitmap),
                      Blob(aggregateSignature), Blob(leaderSignature), Blob(originatorPid), Blob(invalidSigners)]);
    var parts := [Text(0x0a, blockHeaderHash), Text(0x12, signatureShare), Text(0x1a, body), Text(0x22, header),
                  Text(0x2a, pubKey), Text(0x32, signature), Number(0x38, Word64(msgType)), Number(0x40, Word64(roundIndex)),
                  Text(0x4a, chainID), Text(0x52, pubKeysBitmap), Text(0x5a, aggregateSignature),
                  Text(0x62, leaderSignature), Text(0x6a, originatorPid), Text(0x72, invalidSigners)];
    forall k | 0 <= k < 14 ensures
      && ValidValue(CONSENSUS_MESSAGE[k], m.values[k]) && (IsScalar(CONSENSUS_MESSAGE[k]) || CONSENSUS_MESSAGE[k].Bytes?)
      && IsFlat(m.values[k]) && parts[k] == FlatPart(k + 1, m.values[k])
    {
      if k < 6 {
        assert CONSENSUS_MESSAGE[k] == Bytes;
      } else if k < 8 {
        assert CONSENSUS_MESSAGE[k] == Int64;
      } else {
        assert CONSENSUS_MESSAGE[k] == Bytes;
      }
    }
    FlatBytes(CONSENSUS_MESSAGE, m, parts);
  }

  lemma HeartbeatBytes(payload: seq<byte>, versionNumber: seq<byte>, nodeDisplayName: seq<byte>, identity: seq<byte>,
                       nonce: uint64, peerSubType: uint32, pubkey: seq<byte>, numTrieNodesSynced: uint64)
    ensures var m := Message([Blob(payload), Blob(versionNumber), Blob(nodeDisplayName), Blob(identity), Scalar(nonce),
                              Scalar(peerSubType), Blob(pubkey), Scalar(numTrieNodesSynced)]);
            ValidMessage(HEARTBEAT_V2, m) &&
            Encode(HEARTBEAT_V2, m) ==
            Join([Text(0x0a, payload), Text(0x12, versionNumber), Text(0x1a, nodeDisplayName), Text(0x22, identity),
                  Number(0x28, nonce), Number(0x30, peerSubType), Text(0x3a, pubkey), Number(0x40, numTrieNodesSynced)])
  {
    var m := Message([Blob(payload), Blob(versionNumber), Blob(nodeDisplayName), Blob(identity), Scalar(nonce),
                      Scalar(peerSubType), Blob(pubkey), Scalar(numTrieNodesSynced)]);
    FlatBytes(HEARTBEAT_V2, m,
              [Text(0x0a, payload), Text(0x12, versionNumber), Text(0x1a, nodeDisplayName), Text(0x22, identity),
               Number(0x28, nonce), Number(0x30, peerSubType), Text(0x3a, pubkey), Number(0x40, numTrieNodesSynced)]);
  }

  lemma PeerAuthenticationBytes(pubkey: seq<byte>, signature: seq<byte>, pid: seq<byte>, payload: seq<byte>,
                                payloadSignature: seq<byte>)
    ensures var m := Message([Blob(pubkey), Blob(signature), Blob(pid), Blob(payload), Blob(payloadSignature)]);
            ValidMessage(PEER_AUTHENTICATION, m) &&
            Encode(PEER_AUTHENTICATION, m) ==
            Join([Text(0x0a, pubkey), Text(0x12, signature), Text(0x1a, pid), Text(0x22, payload), Text(0x2a, payloadSignature)])
  {
    FlatBytes(PEER_AUTHENTICATION,
              Message([Blob(pubkey), Blob(signature), Blob(pid), Blob(payload), Blob(payloadSignature)]),
              [Text(0x0a, pubkey), Text(0x12, signature), Text(0x1a, pid), Text(0x22, payload), Text(0x2a, payloadSignature)]);
  }

  lemma PayloadBytes(timestamp: int64, hardforkMessage: seq<byte>)
    ensures var m := Message([Scalar(timestamp), Blob(hardforkMessage)]);
            ValidMessage(HEARTBEAT_PAYLOAD, m) &&
            Encode(HEARTBEAT_PAYLOAD, m) == Join([Number(0x08, Word64(timestamp)), Text(0x12, hardforkMessage)])
  {
    FlatBytes(HEARTBEAT_PAYLOAD, Message([Scalar(timestamp), Blob(hardforkMessage)]),
              [Number(0x08, Word64(timestamp)), Text(0x12, hardforkMessage)]);
  }

  lemma RequestDataBytes(requestType: int32, value: seq<byte>, epoch: uint32, chunkIndex: uint32)
    ensures var m := Message([Scalar(requestType), Blob(value), Scalar(epoch), Scalar(chunkIndex)]);
            ValidMessage(REQUEST_DATA, m) &&
            Encode(REQUEST_DATA, m) ==
            Join([Number(0x08, Word64(requestType)), Text(0x12, value), Number(0x18, epoch), Number(0x20, chunkIndex)])
  {
    FlatBytes(REQUEST_DATA, Message([Scalar(requestType), Blob(value), Scalar(epoch), Scalar(chunkIndex)]),
              [Number(0x08, Word64(requestType)), Text(0x12, value), Number(0x18, epoch), Number(0x20, chunkIndex)]);
  }
}
