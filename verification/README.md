# Verified model of the node's bookkeeping codecs and indexes

This project models the parts of the MultiversX node that keep history: the
generated protobuf codecs, the history repository with its notarization
notifications, and the index of transaction results; and, beside them, a few
smaller components (health records, consensus bitmap, proof and token keys, the
peer-id queue). It proves what each operation keeps and what whole runs of them
guarantee.

## What is modelled

**The wire codecs** (`bits`, `hashes`, `varint`, `unknown_fields`, `wire`,
`wire_round_trip`, `wire_concat`, `wire_buffer`, `wire_layout`, `wire_tables`,
`results_hashes`, `miniblock_metadata`, `flat_message`). All generated files follow one template
over a table of field kinds. `Wire.Encode` and `Wire.Decode` are that template;
the laws are proved for every table, including tables with nested messages to any
depth, and implement the Protocol Buffers Encoding specification, sections
"Base 128 Varints", "Message Structure", "Length-Delimited Records", "Groups" and
"Last One Wins". The imperative methods write a byte array backwards with a moving
index and read forwards with the in-line varint loops, or-ing seven bits at a time
into words of 32 or 64 bits; they are proved against `Encode` and `Decode`.
`WireLayout` and `WireTables` say in literal bytes what those two mean: each field of
each message by name, under the tag byte that the generated writer stores.
Machine integers are unbounded numbers with every truncation, shift, sign reading
and overflow written out. Inputs are shorter than 2^63 bytes, as every Go slice is.
The nested record and the thirteen-field metadata are classes of their own; the
messages of the consensus, heartbeat, data-retrieval and epoch-index files are
tables run by the class `FlatMessage`, which loops over its table where the
generated code has one statement sequence per field. Their six `skip` functions
are one function under six names.

**The history repository** (`history`, `history_laws`, `history_order`,
`history_repository`, `history_interleaving`, `history_shards`,
`history_consistency`, `history_refinement`, `history_meaning`, `history_blocks`,
`stored_bytes`). `History` says what each operation makes of a state: epoch index, metadata per miniblock and epoch,
transaction index, block by round, three pending maps, deduplication cache. The class `HistoryRepository` runs
the loops and is proved against it, whatever storage operations fail and whatever
the cache evicts. `HistoryMeaning` and `HistoryBlocks` say field by field and map by
map what those operations are. `HistoryInterleaving` is the same repository one storage
operation at a time, with the recorder, the consumer and arriving notifications
interleaving freely, as the two mutexes allow; `HistoryRefinement` proves that
every run of the operations of `History`, failing writes and reads included, is a
run of that machine, and `StoredBytes` that loads and puts of values are loads and
puts of marshalled bytes.

**The results index** (`results_index`, `results_history`). Records and groups are
objects shared through a map and appended to in place; the storer holds bytes. Go
iterates maps in no fixed order, so each loop takes keys in any order and the
contracts say what holds for all of them.

**Smaller parts**: `health_records`, `consensus_bitmap`, `keys`, `token_keys`,
`pid_queue`.

## What the code does not do

Four things one may expect are not always so. Each has its exact condition.

- Groups stored for a transaction stay in front of a call's own exactly when the call
  can read them or there are none (`ResultsHistory.GroupsKeptIff`; witness
  `EarlierGroupsDisappear`). The stored receipt hash is always that of the last call
  that touched the transaction, and a call with a receipt stores none of its own
  result hashes (`ResultsHistory.ResultsAppendOnly`).
- A re-recording keeps a miniblock's notarization coordinates exactly when the
  deduplication cache still holds its key or the recording fails before its metadata
  put (`HistoryRefinement.RerecordKeepsIff`; witness run
  `HistoryInterleaving.EvictionLosesCoordinates`).
- A printed nonce-shard key is read back exactly when the nonce is below 2^63
  (`Keys.NonceShardRoundTrip`).
- The bitmap check counts padding bits. It ensures that any two accepted bitmaps share
  t1 + t2 - n signers exactly when the group size is a multiple of 8, t1 + t2 is at
  most n, or one threshold is more than the bitmap can hold
  (`ConsensusBitmap.OverlapIff`; witness `PaddingMatters`).

The comment above the deduplication key says the epoch is part of it so that a
miniblock re-added in a later epoch is not ignored; `HistoryLaws.RecordRepoints`
proves that.

## Model

| member | source | states |
|---|---|---|
| Varint.SovIsExact | dblookupext/resultsHashesByTxHash.pb.go:329-379 | the size formula by bit length is exactly the number of bytes the varint writer produces, for every number |
| Varint.WrittenIsVarint | dblookupext/resultsHashesByTxHash.pb.go:329-339 | what the writer produces for a uint64 is one complete varint, of at most ten bytes, spelling that number |
| Varint.ReadWritten | dblookupext/resultsHashesByTxHash.pb.go:522-552 | a written uint64 is read back from any position of any input |
| Varint.WriteVarint | dblookupext/resultsHashesByTxHash.pb.go:329-339 | the varint ends exactly before the given offset and no other byte of the buffer changes |
| Varint.OrInto | dblookupext/miniblockMetadata.pb.go:822-840 | or-ing seven bits at a growing shift into a word of 32 or 64 bits keeps the low bits of the unbounded sum |
| Varint.ReadVarint | dblookupext/miniblockMetadata.pb.go:822-840 | every accepted varint, overlong ones included, is read as its value modulo 2^32 or 2^64; too long and truncated ones are the two errors; the loop ends |
| Varint.SkipVarint | dblookupext/resultsHashesByTxHash.pb.go:662-677 | skipping a varint payload ends where reading it would, with the same errors |
| UnknownFields.SkipPayload | dblookupext/resultsHashesByTxHash.pb.go:661-713 | where the payload after a tag ends, per wire type, with the overflow and sign checks |
| UnknownFields.Skip | dblookupext/resultsHashesByTxHash.pb.go:643-720 | the loop with one index and a depth counter ends on every input and returns what the recursive reading of it returns |
| UnknownFields.SkipsField | dblookupext/resultsHashesByTxHash.pb.go:643-720 | on any field of the grammar, nested groups to any depth, skipping advances by exactly its encoding and returns to the depth it had |
| UnknownFields.ReadsGroup | dblookupext/resultsHashesByTxHash.pb.go:643-720 | a successful skip inside a group has read a list of fields and an end tag |
| UnknownFields.SkipIffField | dblookupext/resultsHashesByTxHash.pb.go:643-720 | skip returns an end exactly when the bytes up to it are one field or group of the grammar |
| WireLayout.VarintByte | dblookupext/resultsHashesByTxHash.pb.go:329-339 | byte k of a varint holds bits 7k to 7k+6 of the number, with the high bit on all but the last |
| WireLayout.ScanIff | dblookupext/resultsHashesByTxHash.pb.go:526-540 | exactly which bytes are read as a varint of n bytes, which are too long (ten high bytes) and which end too soon |
| WireLayout.ScalarBytes | dblookupext/miniblockMetadata.pb.go:307-316 | scalar field k is the byte 8k and the varint of its sign-extended word, or nothing when zero |
| WireLayout.DelimitedBytes | dblookupext/resultsHashesByTxHash.pb.go:305-324 | a delimited field k is the byte 8k+2, the varint of the length, and the bytes |
| WireLayout.ScalarKeeps | dblookupext/miniblockMetadata.pb.go:822-840 | a scalar is its varint modulo 2^32 or 2^64, in the range of its type, stated in numbers |
| WireLayout.HeadMeans | dblookupext/resultsHashesByTxHash.pb.go:541-552 | wire type 4 and field numbers that are not positive int32 are refused; else number and wire type are the upper bits and the lower three |
| WireLayout.WindowMeans | dblookupext/resultsHashesByTxHash.pb.go:558-584 | where a payload lies, and which of the two errors it is otherwise, stated in numbers |
| WireLayout.WireTypesChecked | dblookupext/miniblockMetadata.pb.go:515-520 | a scalar field is refused exactly unless its wire type is 0, a byte string exactly unless it is 2 |
| WireLayout.SkipTurn | dblookupext/resultsHashesByTxHash.pb.go:661-713 | where skip goes on each of the wire types 0 to 7 |
| WireLayout.SkipDepth | dblookupext/resultsHashesByTxHash.pb.go:661-720 | only 3 opens a group, only 4 closes one, and skip ends when none is open |
| WireLayout.DecodedField | dblookupext/resultsHashesByTxHash.pb.go:553-616 | one written field replaces a scalar or byte string, is appended to a repeated field, and leaves every other field as it was |
| WireTables.GroupBytes | dblookupext/resultsHashesByTxHash.pb.go:263-284 | the group's fields by name, under tags 0x08 and 0x12 |
| WireTables.RecordBytes | dblookupext/resultsHashesByTxHash.pb.go:300-328 | the record's fields by name, under tags 0x0a and 0x12 |
| WireTables.MetadataBytes | dblookupext/miniblockMetadata.pb.go:307-389 | the thirteen fields by name, each under its tag byte, in order |
| WireTables.StoredMetadataBytes | dblookupext/historyRepository.go:209-218 | the same for the metadata values that the repository stores |
| WireTables.EpochByHashBytes | dblookupext/epochByHash.pb.go:147-170 | an epoch is 0x08 and its varint; epoch 0 is no bytes |
| WireTables.ConsensusMessageBytes | consensus/message.pb.go:317-428 | the fourteen fields by name, each under its tag byte, in order |
| WireTables.HeartbeatBytes | heartbeat/heartbeat.pb.go:468-539 | the eight fields by name, each under its tag byte, in order |
| WireTables.PeerAuthenticationBytes | heartbeat/heartbeat.pb.go:541-597 | the five fields by name, each under its tag byte, in order |
| WireTables.PayloadBytes | heartbeat/heartbeat.pb.go:599-628 | timestamp and hardfork message under tags 0x08 and 0x12 |
| WireTables.RequestDataBytes | dataRetriever/requestData.pb.go:244-283 | the four fields by name, each under its tag byte, in order |
| WireRoundTrip.NarrowUndoes | dblookupext/miniblockMetadata.pb.go:312-400 | every uint32, uint64, int32 and int64 comes back from its 64-bit conversion, negative int32 in ten bytes included |
| WireRoundTrip.DecodesField | dblookupext/resultsHashesByTxHash.pb.go:522-642 | decoding the encoding of one field, at any nesting, merges exactly that value into that field and goes on behind it |
| WireRoundTrip.DecodeMerges | dblookupext/resultsHashesByTxHash.pb.go:522-642 | decoding an encoded message into any message overwrites present scalars and byte strings and appends repeated elements |
| WireRoundTrip.RoundTrip | dblookupext/resultsHashesByTxHash.pb.go:248-642 | for every table and every message of it, decoding the encoding into a fresh message succeeds and gives the message back |
| WireConcat.DecodeConcat | dblookupext/resultsHashesByTxHash.pb.go:522-642 | if a is accepted, decoding a followed by b is decoding b into what a left: the same message, or an error on both sides |
| WireConcat.ConcatMerges | dblookupext/resultsHashesByTxHash.pb.go:522-642 | two encodings one after the other decode to the merge of the two messages |
| WireConcat.SkipsUnknown | consensus/message.pb.go:1080-1106 | a well-formed field of unused number, at the front, leaves decoding as if it were not there: the same message, or an error on both sides |
| WireConcat.UnknownIsTransparent | consensus/message.pb.go:530-1106 | inserting such a field anywhere behind accepted bytes changes nothing that is decoded |
| WireConcat.EncodeInjective | dblookupext/resultsHashesByTxHash.pb.go:248-328 | different messages have different encodings |
| WireBuffer.WriteScalar | dblookupext/miniblockMetadata.pb.go:312-316 | a varint field lands directly before the index, nothing else changes, and zero is left out |
| WireBuffer.WriteHead | dblookupext/resultsHashesByTxHash.pb.go:305-318 | length and tag in front of a payload that is already in the buffer complete a length-delimited field |
| WireBuffer.PutBlob | dblookupext/miniblockMetadata.pb.go:317-330 | one more byte-string field in front of the fields already written, never outside the buffer |
| WireBuffer.ReadHead | dblookupext/resultsHashesByTxHash.pb.go:526-552 | tag, field number and wire type, with the end-group and illegal-tag errors |
| WireBuffer.ReadNumber | dblookupext/miniblockMetadata.pb.go:822-840 | the loop in a word of the field's width reads the arithmetic value of the scalar |
| WireBuffer.ReadWindow | dblookupext/resultsHashesByTxHash.pb.go:553-585 | the bounds of a payload, or an error when length or end is negative after 64-bit overflow or past the input |
| WireBuffer.SkipField | dblookupext/resultsHashesByTxHash.pb.go:617-636 | the default case of the switch, with its own overflow and bounds checks |
| ResultsHashes.ScResultsHashesAndEpoch.Size | dblookupext/resultsHashesByTxHash.pb.go:340-357 | the size of the group is the length of its encoding |
| ResultsHashes.ScResultsHashesAndEpoch.MarshalToSizedBuffer | dblookupext/resultsHashesByTxHash.pb.go:263-284 | the backward loop writes exactly the encoding of the group, ending at the given position, and touches nothing else |
| ResultsHashes.ScResultsHashesAndEpoch.Unmarshal | dblookupext/resultsHashesByTxHash.pb.go:418-521 | on every input the loop ends and leaves the group that decoding says, or the error |
| ResultsHashes.ResultsHashesByTxHash.Size | dblookupext/resultsHashesByTxHash.pb.go:358-376 | the size of the record, nested groups included, is the length of its encoding |
| ResultsHashes.ResultsHashesByTxHash.MarshalToSizedBuffer | dblookupext/resultsHashesByTxHash.pb.go:300-328 | nested groups are written in place, backwards; the result is the encoding and nothing else changes |
| ResultsHashes.ResultsHashesByTxHash.Unmarshal | dblookupext/resultsHashesByTxHash.pb.go:522-642 | on every input the loop ends and leaves the record that decoding says, or the error; groups already there are kept |
| ResultsHashes.MarshalThenUnmarshal | dblookupext/resultsHashesByTxHash.pb.go:248-642 | a record written and read into a fresh record is the same record, with no error, at both nesting levels |
| ResultsHashes.RecordRoundTrip | dblookupext/resultsHashesByTxHash.pb.go:285-642 | the round trip for the table of this record |
| MiniblockMetadataCodec.MiniblockMetadata.Size | dblookupext/miniblockMetadata.pb.go:401-453 | the size is the length of the encoding of the thirteen fields |
| MiniblockMetadataCodec.MiniblockMetadata.MarshalToSizedBuffer | dblookupext/miniblockMetadata.pb.go:307-389 | thirteen fields, last one first, make exactly the encoding; nothing else changes |
| MiniblockMetadataCodec.MiniblockMetadata.Unmarshal | dblookupext/miniblockMetadata.pb.go:490-864 | on every input the loop ends with the decoded metadata or the error |
| MiniblockMetadataCodec.MarshalThenUnmarshal | dblookupext/miniblockMetadata.pb.go:292-864 | metadata written and read into a fresh object is the same metadata |
| FlatMessages.FlatMessage.MarshalToSizedBuffer | consensus/message.pb.go:317-418 | for every such table, the fields from the last to the first make exactly the encoding |
| FlatMessages.FlatMessage.Unmarshal | heartbeat/heartbeat.pb.go:769-1042 | for every such table and every input, the loop ends with the decoded message or the error |
| FlatMessages.MarshalThenUnmarshal | dataRetriever/requestData.pb.go:234-477 | for every such table, writing and reading into a fresh message gives the message back |
| HistoryRepository.HistoryRepository.RecordMiniblock | dblookupext/historyRepository.go:194-237 | new stores, cache and error for every combination of failing writes, with each field of the stored metadata; a remembered key is a no-op |
| HistoryRepository.HistoryRepository.RecordBlock | dblookupext/historyRepository.go:126-192 | the block is its header's epoch, its miniblocks without peer ones, those created here, then its round; which errors stop it and what was done by then |
| HistoryRepository.HistoryRepository.OnNotarizedMiniblock | dblookupext/historyRepository.go:347-391 | which of the three maps gets the notification: both for intra-shard and to-metachain miniblocks, else the side of the shard block, for own miniblocks that are not peer ones |
| HistoryRepository.HistoryRepository.OnNotarizedBlocks | dblookupext/historyRepository.go:313-335 | the notes of all headers in order, then consumption |
| HistoryRepository.HistoryRepository.ConsumePending | dblookupext/historyRepository.go:433-469 | in whatever order the keys come, exactly the deliverable notifications are stored as coordinates of their side and leave the map |
| HistoryRepository.HistoryRepository.GetMiniblockMetadataByTxHash | dblookupext/historyRepository.go:262-303 | what is found and when, reads that fail included; with consistent indexes, always metadata of the indexed miniblock and its epoch |
| HistoryMeaning.RecordMeans | dblookupext/historyRepository.go:194-237 | every case of recordMiniblock: what it returns, each field of the metadata it stores, which transactions it indexes, and what stays |
| HistoryMeaning.NotifiedMaps | dblookupext/historyRepository.go:347-391 | which of the three maps one miniblock header goes to, and that the other two stay |
| HistoryMeaning.SourceConsumed | dblookupext/historyRepository.go:409-412 | each source notification that can be delivered becomes the source coordinates and nothing else changes; the others wait |
| HistoryMeaning.DestinationConsumed | dblookupext/historyRepository.go:414-417 | the same for the destination |
| HistoryMeaning.BothConsumed | dblookupext/historyRepository.go:419-424 | the same for both sides at once |
| HistoryMeaning.Consumed | dblookupext/historyRepository.go:393-469 | after the three passes, what each side's coordinates are, and that nothing is pending for a miniblock that is stored |
| HistoryMeaning.ShardInfoNotarizes | dblookupext/historyRepository.go:313-469 | a stored miniblock that a metablock's shard info names once ends with that metablock's coordinates at exactly the sides it should |
| HistoryMeaning.MetaBlockNotarizes | dblookupext/historyRepository.go:313-469 | the same for a miniblock that the metablock itself names once |
| HistoryMeaning.PassesOver | dblookupext/historyRepository.go:313-341 | other headers and the genesis metablock's shard info change nothing |
| HistoryBlocks.BlockMeans | dblookupext/historyRepository.go:126-192 | a block's header, round, miniblocks and transactions in the stores, whichever single recordings fail, and that everything else stays |
| HistoryBlocks.PeersPassedOver | dblookupext/historyRepository.go:151-154 | a peer miniblock of the body changes nothing |
| HistoryLaws.DeliveredMeans | dblookupext/historyRepository.go:433-469 | for each pending hash, delivered coordinates and a map without it, or the notification still waiting |
| HistoryLaws.DeliverOne | dblookupext/historyRepository.go:433-469 | one more notification changes one entry and one pending key, or nothing |
| HistoryLaws.NotarizedPatches | dblookupext/historyRepository.go:393-469 | notarization never adds, removes or re-files metadata and never touches the indexes |
| HistoryLaws.IndexConsistentAlways | dblookupext/historyRepository.go:126-303 | over every run whose metadata writes succeed, each indexed transaction leads to metadata of its miniblock and epoch |
| HistoryLaws.RecordConsistentIff | dblookupext/historyRepository.go:194-237 | with failing writes, one recording keeps that consistency exactly unless the epoch was saved, the metadata was not and was not there, and a transaction led to the miniblock |
| HistoryLaws.RecordRepoints | dblookupext/historyRepository.go:194-254 | recorded in another epoch, lookups go to the new entry and the old one is untouched |
| HistoryOrder.FinalMetadata | dblookupext/historyRepository.go:313-469 | around one recording, any events before and after: the metadata tells of the recorded block and miniblock, each side's coordinates are those of the last notification for it or unset, and nothing stays pending |
| HistoryOrder.OrderIndependent | dblookupext/historyRepository.go:313-469 | two runs with the same notifications in order agree on the metadata wherever the recording stands |
| HistoryInterleaving.CoordinatesNeverLost | dblookupext/historyRepository.go:194-469 | from any moment of any interleaved run, while its key is remembered, coordinates once received stay or give way to notified ones, provided the notifications for that miniblock carry coordinates |
| HistoryInterleaving.EvictionLosesCoordinates | dblookupext/historyRepository.go:243-259 | a run in which the cache drops the key and a re-recording erases the coordinates |
| HistoryConsistency.ConsistentUnderInterleaving | dblookupext/historyRepository.go:126-469 | in every state of every interleaving whose metadata puts succeed, each indexed transaction leads to metadata of its miniblock and epoch, unless that miniblock is between the two puts of a re-recording |
| HistoryShards.BothSidesAlways | dblookupext/historyRepository.go:347-424 | in every reachable state, intra-shard and to-metachain metadata has equal coordinates at both sides, and only own, non-peer miniblocks wait |
| HistoryRefinement.RecordingRefines | dblookupext/historyRepository.go:194-237 | an undisturbed recording, step by step and whatever fails in it, is the recording as one operation |
| HistoryRefinement.RerecordKeepsIff | dblookupext/historyRepository.go:194-259 | in any state, an undisturbed re-recording keeps stored coordinates exactly if the key is remembered or it fails before the put |
| HistoryRefinement.SideRefines | dblookupext/historyRepository.go:433-469 | an undisturbed pass over one pending map, in any order of its keys, is its consumption as one operation |
| HistoryRefinement.ConsumingRefines | dblookupext/historyRepository.go:393-431 | whenever the consumer is free, the three passes one after the other are the whole consumption |
| HistoryRefinement.NotarizingRefines | dblookupext/historyRepository.go:313-431 | all notes of all headers arriving one by one and then consumed are OnNotarizedBlocks as one operation |
| HistoryRefinement.EveryRunIsFollowed | dblookupext/historyRepository.go:126-469 | every run of whole operations, failures included, is a run of the interleaved machine |
| StoredBytes.SaveEpochRepresents | dblookupext/hashToEpochIndex.go:37-48 | saving an epoch as bytes represents saving it as a value, epoch 0 (no bytes) included |
| StoredBytes.PutMetadataRepresents | dblookupext/historyRepository.go:271-283 | putting marshalled metadata in its epoch represents putting the value |
| StoredBytes.LoadsWhatIsStored | dblookupext/historyRepository.go:285-303 | a lookup through bytes finds exactly what a lookup in the values finds |
| ResultsIndex.ListOne | dblookupext/eventsHashesByTxHashIndex.go:78-98 | one more handler adds its hash to the results of its own original transaction only; wrong casts add nothing |
| ResultsIndex.LastOne | dblookupext/eventsHashesByTxHashIndex.go:57-68 | one more receipt replaces whatever was there for its transaction and nothing else |
| ResultsIndex.AppendHash | dblookupext/eventsHashesByTxHashIndex.go:96-97 | appending through the shared group object changes that transaction's record and no other |
| ResultsIndex.EventsHashesByTxHash.GroupSmartContractResults | dblookupext/eventsHashesByTxHashIndex.go:73-101 | one record per original transaction, with one group of the call's epoch holding exactly its hashes once each |
| ResultsIndex.EventsHashesByTxHash.GroupTransactionOutcomes | dblookupext/eventsHashesByTxHashIndex.go:50-71 | a transaction has a record exactly if touched: a receipt alone, or else one group |
| ResultsIndex.EventsHashesByTxHash.MergeGroups | dblookupext/eventsHashesByTxHashIndex.go:106-119 | the groups decoded from the stored bytes come first; unreadable or undecodable bytes are given up |
| ResultsIndex.EventsHashesByTxHash.SaveResultsHashes | dblookupext/eventsHashesByTxHashIndex.go:28-48 | for every transaction, the bytes stored afterwards, whatever reads and writes fail |
| ResultsIndex.AllMade | dblookupext/eventsHashesByTxHashIndex.go:50-101 | after both loops the records are those of the touched transactions and no others |
| ResultsHistory.ResultsAppendOnly | dblookupext/eventsHashesByTxHashIndex.go:28-122 | after any run of calls the stored bytes decode to one group per call with results and no receipt, in order, with that call's epoch and exactly its hashes, and to the last touching call's receipt |
| ResultsHistory.GroupsKeptIff | dblookupext/eventsHashesByTxHashIndex.go:103-122 | the groups stored before a call stand in front of its own group afterwards exactly if it can read them or there are none; otherwise its own group alone is left |
| ResultsHistory.EarlierGroupsDisappear | dblookupext/eventsHashesByTxHashIndex.go:106-116 | one storer and one call after which the group stored before is gone |
| ResultsHistory.UndecodableReplaced | dblookupext/eventsHashesByTxHashIndex.go:112-116 | stored bytes that do not decode give way to the call's own group |
| HealthRecords.Records.AddRecord | health/records.go:21-40 | the new list and files for any capacity of at least one and any failing file operation |
| HealthRecords.Records.MakeRoomForRecord | health/records.go:42-68 | a full list refuses a record its last item is more important than, and else loses that item and its file |
| HealthRecords.Records.FindInsertionPlace | health/records.go:70-80 | the first item the record is more important than, or the end |
| HealthRecords.TopK | health/records.go:21-80 | after any records, the importances kept are the first capacity of all seen, in descending order, for every such arrangement of them |
| HealthRecords.ArrivalOrder | health/records.go:21-80 | every kept item arrived at its own time and equal ones stand in arrival order |
| HealthRecords.TieReplacesLast | health/records.go:42-50 | in a full list a newcomer as important as the last item takes its place, at the end |
| HealthRecords.FilesAfter | health/records.go:36-67 | which files are there after a record was added, whatever saving and deleting fail |
| HealthRecords.FilesMatchIff | health/records.go:36-67 | on a working disk the files stay those of the listed records exactly unless an eviction deletes a file another listed record shares |
| HealthRecords.FilesMatch | health/records.go:21-80 | with distinct file names the files are always those of the listed records |
| ConsensusBitmap.GetBitmapSize | common/common.go:80-89 | the fewest bytes with a bit for every key |
| ConsensusBitmap.IsConsensusBitmapValid | common/common.go:92-131 | wrong size exactly if the length differs; valid exactly if the set of marked positions has at least the threshold's number of members |
| ConsensusBitmap.NextByte | common/common.go:107-110 | the population count of a byte is the number of positions it adds |
| ConsensusBitmap.SignersMean | common/common.go:107-110 | key j signed exactly if binary digit j mod 8 of byte j/8 is 1 |
| ConsensusBitmap.QuorumsOverlap | common/common.go:92-131 | two bitmaps with clear padding, accepted under thresholds t1 and t2, share at least t1 + t2 - n signers of the group |
| ConsensusBitmap.QuorumsOverlapAnyPadding | common/common.go:92-131 | whatever the padding, the overlap counted against all positions of the bitmap |
| ConsensusBitmap.OverlapIff | common/common.go:80-131 | any two accepted bitmaps share at least t1 + t2 - n positions exactly if there is no padding, nothing to ensure, or nothing to accept |
| ConsensusBitmap.PaddingMatters | common/common.go:101-126 | for a group of one, two accepted bitmaps that share no signer, their padding being set |
| Keys.AtoiDecimal | common/common.go:154-200 | a printed number is read back exactly if it fits a signed 64-bit integer |
| Keys.HashShardRoundTrip | common/common.go:159-183 | every printed hash-shard key is read back |
| Keys.LargeShardWraps | common/common.go:164-183 | a larger number in the shard's place is cut to 32 bits, or refused from 2^63 on |
| Keys.NonceShardRoundTrip | common/common.go:154-204 | a printed nonce-shard key is read back exactly if the nonce is below 2^63 and refused otherwise |
| Keys.HexDigits | common/common.go:159-161 | each byte is two lower-case hexadecimal digits, the high one first |
| Keys.DecimalDigit | common/common.go:154-156 | each decimal digit is that of its power of ten, without leading zeros |
| Keys.OneHyphenIff | common/common.go:164-192 | a key is refused as malformed exactly if it does not have one hyphen |
| Keys.UnhexIff | common/common.go:171-174 | a hash is read exactly if it is an even number of hexadecimal digits in either case |
| Keys.AtoiMinus | common/common.go:176-200 | a minus sign negates, down to -2^63 |
| Keys.PrintedExamples | common/common.go:154-161 | the separators and the order of the parts, in three keys |
| Keys.HashShardInjective | common/common.go:159-161 | different hashes or shards have different keys |
| Keys.NonceShardInjective | common/common.go:154-156 | different nonces or shards have different keys, also those that cannot be read back |
| Keys.DeduplicationInjective | dblookupext/historyRepository.go:252-254 | different epochs or miniblock hashes have different deduplication keys |
| TokenKeys.ExtractSplits | common/tokensParser.go:25-62 | for any key, the identifier is a prefix and the nonce is the big-endian value of the rest, cut to 64 bits |
| TokenKeys.NonceStartIff | common/tokensParser.go:25-58 | a nonce is split off exactly if the first hyphen stands at 3 to 10 and seven bytes follow it, and it starts after six of them |
| TokenKeys.BigEndianFirst | common/tokensParser.go:54-55 | the first byte of a nonce is its most significant |
| TokenKeys.TokenRoundTrip | common/tokensParser.go:25-62 | ticker, sequence and minimal nonce bytes are split back into identifier and nonce, hyphens in the nonce included |
| TokenKeys.RejoinIff | common/tokensParser.go:53-61 | for any key, identifier and minimal nonce bytes give the key back exactly if the nonce part has no leading zero and at most eight bytes |
| PidQueues.PidQueue.Push | common/pidQueue.go:24-29 | one more element at the end, in place or in a grown array |
| PidQueues.PidQueue.Pop | common/pidQueue.go:32-44 | the first element leaves by re-slicing; an empty queue gives the empty id |
| PidQueues.PidQueue.Promote | common/pidQueue.go:61-76 | the tail shifts down in place within the same array and the promoted element comes last; a bad index does nothing |
| PidQueues.PidQueue.Remove | common/pidQueue.go:79-94 | every occurrence goes, the others keep their order |
| PidQueues.PidQueue.DataSizeInBytes | common/pidQueue.go:97-107 | the sum of the lengths of what is queued |
| PidQueues.PromoteConserves | common/pidQueue.go:61-76 | promoting keeps every element and the size in bytes |
| PidQueues.PromotedAt | common/pidQueue.go:61-76 | the promoted element comes last and the others keep their order |
| PidQueues.RemoveKeepsOrder | common/pidQueue.go:79-94 | what is left keeps its order |
| PidQueues.RemoveTakesAll | common/pidQueue.go:79-94 | removing takes exactly the occurrences of the id |
| PidQueues.RemoveFrees | common/pidQueue.go:79-107 | and frees exactly their bytes |
| PidQueues.FirstInFirstOut | common/pidQueue.go:24-44 | over every run of pushes and pops, what came out followed by what is left is what was there followed by what was pushed |

## Left out

- ResultsHashes.ResultsHashesByTxHash.Unmarshal: what the fields hold after an error is left open; callers in the repository discard the object then.
- MiniblockMetadataCodec.MiniblockMetadata.Unmarshal: the same; and the thirteen cases of the switch are one reading step and one assignment step.
- FlatMessages.FlatMessage.Unmarshal: the same; the per-field statement sequences of four generated files are a loop over a table, and a string is the bytes it holds.
- WireConcat.DecodeConcat: errors are compared as errors; which kind both sides give is not claimed.
- WireConcat.SkipsUnknown: the same.
- HistoryOrder.FinalMetadata: storage operations succeed and shards are a function of the miniblock hash; a notification set again between the consumer's read and its removal belongs to the interleaved machine, where conservation is not claimed.
- HistoryInterleaving.CoordinatesNeverLost: a coordinate may give way to any notification that ever arrived for its side; and a notification of nonce 0 and empty hash, which is what unset coordinates look like, ends the promise for its own miniblock.
- HistoryLaws.IndexConsistentAlways: hashes of miniblocks and headers never coincide and metadata writes that follow a saved epoch succeed; what happens otherwise is HistoryLaws.RecordConsistentIff. The same assumptions hold for HistoryConsistency.ConsistentUnderInterleaving.
- ResultsHistory.ResultsAppendOnly: the reads and writes of the transaction in question succeed; others may fail.
- ConsensusBitmap.IsConsensusBitmapValid: core.GetPBFTThreshold and core.GetPBFTFallbackThreshold are parameters, because they are not part of the repository.
- A nil byte slice and an empty one are the same value, as Equal treats them; nil inner messages are excluded, because the writer dereferences them.
- GoString, String, descriptors, getters and Equal of the generated files.
- Storage engines, hashers, marshalizer selection and the LRU policy: storers are maps whose operations may fail, hashes are given, and the cache may drop any keys whenever it is written (in the interleaved machine, at any time). The in-memory pending maps are Go mutex maps, read and written atomically.
- block.PeerBlock is a constant of a module outside the repository; no law depends on its number.
- The results index's storer is one map: the partition by epoch behind Get and GetFromEpoch, and so getEventsHashesByTxHash, are not modelled.
- The uint64 to byte-slice converter of the round index, which is outside the repository: blocks are kept under the round itself.
- HistoryBlocks.BlockMeans: within one block a hash stands for one miniblock; hashing collisions are not modelled.
- ESDT supplies: whether processing the logs fails is a parameter of RecordBlock. The results index, whose save never returns an error, is modelled on its own and not called from there.
- OnNotarizedBlocks with fewer hashes than headers, where the code would index out of range: each header carries its hash.
- RevertBlock, IsEnabled, logging and error texts.
- The health service's monitoring loop, clock, pprof output and file naming; a record is its file name and the heap it reports.
- Capacity 0 of the health records, where the code would dereference an empty list.
- The locks of the peer-id queue; its methods are modelled as atomic, as the mutex makes them.
- The facade, factories, configuration, header validator, converters and integration tests.
