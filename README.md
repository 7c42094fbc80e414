# couchstore bindings over ForestDB and WiredTiger

This project models the two couchstore-API bindings of a key-value benchmark
harness. `wrappers/couch_fdb.cc` maps the couchstore calls onto the
log-structured ForestDB engine. `wrappers/couch_wt.cc` maps them onto the
WiredTiger cursor/transaction engine. Both bindings store a document's
metadata (`DocInfo`) as a byte blob, using the same codec
(`_docinfo_to_buf` / `_buf_to_docinfo`).

The model has five modules:

- `Bytes` (bytes.dfy): fixed-width integers and their little-endian images.
  Every multi-byte integer is little-endian, and `deleted` is a 32-bit
  two's-complement `int`.
- `CouchTypes` (couch_types.dfy): `Doc`, `sized_buf`, `DocInfo`, `DbInfo` and
  the status codes.
- `Codec` (codec.dfy): the metadata codec. Its layout is `rev_seq` (8 bytes),
  `deleted` (4 bytes), `content_meta` (1 byte), `rev_meta.size` (8 bytes),
  then the `rev_meta` bytes. That makes a 21-byte header. The 1-byte width of
  `content_meta` assumes that `couchstore_content_meta_flags` is a `uint8_t`;
  its declaration in couch_db.h is not part of this model. The width of
  `deleted` is taken to be `sizeof(int)`, the only width for which the
  readers' `meta_offset` finds the size field where the encoder wrote it.
  Decoding a buffer shorter than the header or than its announced size
  answers `None`; the C code reads past the buffer there.
- `CouchFdb` (couch_fdb.dfy): the ForestDB binding.
  - The open-time configuration mapping.
  - The batch save, which updates the caller's `infos` array in place.
  - The single and batch metadata readers. The batch readers reuse one
    scratch record whose trailing `rev_meta` space grows as needed.
  - `open_document`.
- `CouchWt` (couch_wt.dfy): the WiredTiger binding.
  - The backwards scan for the file name and the table name built from it.
  - The table layout.
  - The packed value `[metalen:u16][meta][body]`.
  - The transactional batch save, `set_sync`, `db_info`, `open_document`,
    `commit` and `compact`.

Each engine is a recording stand-in class: a map of what it stores, plus a log
of the calls it received. Each save method is specified by that log and by the
function that replays it (`Replay`, `InsertAll`). A set of keys the engine
refuses to write (`failing`) models engine-side write failure.

## Model

| member | source | states |
|---|---|---|
| Bytes.FromLittleEndianOfImage | wrappers/couch_fdb.cc:164-174 | reading back the n-byte little-endian image of x gives x |
| Bytes.ImageOfFromLittleEndian | wrappers/couch_fdb.cc:226-236 | the image of the number read from n bytes is those bytes |
| Bytes.BitsRoundTrip | wrappers/couch_fdb.cc:229 | a 32-bit pattern read as a signed `int` and written back is the same pattern |
| Codec.Normalized | wrappers/couch_fdb.cc:238-245 | rev_meta as decoded keeps size and bytes, with buf NULL exactly when size is 0 |
| Codec.Encode | wrappers/couch_fdb.cc:159-182 | the length written is the 21-byte header plus rev_meta.size |
| Codec.EncodeFields | wrappers/couch_fdb.cc:159-182 | the encoding is rev_seq, then deleted, then content_meta, then rev_meta.size, then the rev_meta bytes, each at its fixed offset with no padding; there are no trailing bytes when size is 0 |
| Codec.DecodeInto | wrappers/couch_fdb.cc:222-246 | decoding succeeds exactly for buffers holding the header and the announced rev_meta bytes; it leaves id, db_seq, size and bp alone, and sets rev_meta.buf to NULL exactly when the size is 0 |
| Codec.EncodeIsDecodable | wrappers/couch_fdb.cc:173-178 | every encoding decodes, and its size field holds rev_meta.size |
| Codec.DecodeEncode | wrappers/couch_fdb.cc:222-246 | decoding an encoding restores rev_seq, deleted, content_meta, rev_meta.size and the rev_meta bytes, and changes no other field |
| Codec.EncodeDecode | wrappers/couch_wt.cc:242-268 | whatever a buffer decodes to encodes back to exactly the prefix the decoder read |
| Codec.DecodeFields | wrappers/couch_wt.cc:246-263 | rev_seq, content_meta and rev_meta.size are the little-endian numbers at their fixed offsets, deleted is the int32 whose bits are the 4 bytes at offset 8, and the rev_meta bytes are the ones after the header |
| Codec.DecodeIntoTrailing | wrappers/couch_fdb.cc:238-242 | the copy of rev_meta into the record's trailing allocation yields the decoded record, and the allocation holds the rev_meta bytes |
| CouchFdb.MetaOffsetLocatesSize | wrappers/couch_fdb.cc:256 | the readers' meta_offset (8 + sizeof(int) + 1) is where the encoder wrote rev_meta.size, and reading 8 bytes there gives that size |
| CouchFdb.OpenConfig | wrappers/couch_fdb.cc:85-105 | compaction is AUTO exactly when c_auto is nonzero, and then the threshold is c_threshold truncated to the engine's 8-bit field; chunksize is 8; the seqtree and body compression are off; durability is NONE exactly when flag 0x10 is set, ASYNC otherwise; bit 0 of config_flags turns on the WAL flush before commit |
| CouchFdb.DefaultOpenConfig | wrappers/couch_fdb.cc:30-34 | opening before any setter runs asks for AUTO compaction at threshold 30, a 4096-entry WAL, no buffer cache, and the engine's own WAL-flush default |
| CouchFdb.OpenConfigIgnoresOtherFlags | wrappers/couch_fdb.cc:97-101 | open flags agreeing on bit 0x10 give the same configuration |
| CouchFdb.ReplayAppend | wrappers/couch_fdb.cc:202 | one more set call applies to the store after the earlier calls |
| CouchFdb.ReplayLastWrite | wrappers/couch_fdb.cc:193-207 | after a sequence of sets, a key holds the record of its last successful set |
| CouchFdb.ReplayUntouched | wrappers/couch_fdb.cc:193-207 | a key without a successful set keeps its entry or its absence |
| CouchFdb.ReplayKeepsDecodable | wrappers/couch_fdb.cc:198-202 | sets of decodable blobs keep every stored blob decodable |
| CouchFdb.FdbHandle.Set | wrappers/couch_fdb.cc:202 | the engine's set logs the call and stores the record exactly when the write succeeds |
| CouchFdb.FdbHandle.GetMetaOnly | wrappers/couch_fdb.cc:263 | a metadata-only lookup by key finds the stored record exactly when the key is present |
| CouchFdb.FdbHandle.GetMetaOnlyBySeq | wrappers/couch_fdb.cc:351 | a lookup by sequence number finds a record with that seqnum and puts its key into keybuf |
| CouchFdb.FdbHandle.Get | wrappers/couch_fdb.cc:397 | a full lookup succeeds exactly for a present, non-deleted key |
| CouchFdb.MetaOnlyRecord | wrappers/couch_fdb.cc:309-315 | a record read back has the requested id, size = body length, bp = offset and db_seq = seqnum, and the rev_meta size stored in the blob |
| CouchFdb.MetaOnlyRecordReencodes | wrappers/couch_fdb.cc:309-315 | a record read back re-encodes to the stored blob's header and rev_meta |
| CouchFdb.SavedRecordReadsBack | wrappers/couch_fdb.cc:198-206 | a record written by a save reads back as the saved DocInfo with the engine's db_seq and bp, size = body length, and rev_meta NULL exactly when empty |
| CouchFdb.DeliveredByIdStep | wrappers/couch_fdb.cc:294-319 | delivering the next id's record keeps "the j-th record delivered is the stored record of the j-th id" |
| CouchFdb.DeliveredBySeqStep | wrappers/couch_fdb.cc:346-370 | delivering the next record keeps "the j-th record delivered is stored under its id with the j-th seqnum" |
| CouchFdb.SavedPrefixStep | wrappers/couch_fdb.cc:193-207 | saving the next document extends the saved prefix and leaves the later records untouched |
| CouchFdb.SavedKeepsDecodable | wrappers/couch_fdb.cc:193-207 | a save writes only decodable blobs, so every stored blob stays decodable |
| CouchFdb.Db.Open | wrappers/couch_fdb.cc:85-113 | open hands the engine the configuration OpenConfig computes |
| CouchFdb.Db.SaveOne | wrappers/couch_fdb.cc:194-206 | one set with key = id, meta = the encoding, body = data and deleted = 0, with the returned seqnum and offset written into the record |
| CouchFdb.Db.SaveDocuments | wrappers/couch_fdb.cc:193-212 | one set per document in array order; infos[i] differs from before only in db_seq and bp, which are the engine's seqnum and offset; the store is the replay of the calls; SUCCESS exactly when the last set succeeded, ALLOC_FAIL otherwise; stored blobs stay decodable |
| CouchFdb.Db.DecodeGrowing | wrappers/couch_fdb.cc:303-315 | the scratch record is rebuilt from the stored record, and its capacity grows to the rev_meta size when that exceeds it, otherwise stays |
| CouchFdb.Db.DocinfoById | wrappers/couch_fdb.cc:249-277 | the record read is the stored record of that id |
| CouchFdb.Db.DocinfosById | wrappers/couch_fdb.cc:280-324 | exactly one record delivered per id, in order, each the stored record of its id, returning SUCCESS |
| CouchFdb.Db.ReadBySeq | wrappers/couch_fdb.cc:347-366 | one by-sequence read: a stored record with that seqnum, under the key the engine returned |
| CouchFdb.Db.DocinfosBySequence | wrappers/couch_fdb.cc:327-375 | exactly one record delivered per sequence number, in order, each stored under its id with that seqnum, returning SUCCESS |
| CouchFdb.Db.OpenDocument | wrappers/couch_fdb.cc:397-412 | DOC_NOT_FOUND exactly when the get fails; on success the body of the stored document under the requested id |
| CouchWt.LastSegment | wrappers/couch_wt.cc:96-106 | the result is a suffix of the name containing no '/', and is the whole name or is preceded by a '/' |
| CouchWt.LastSegmentAfterSlash | wrappers/couch_wt.cc:99-101 | the suffix after the last '/' is the file name |
| CouchWt.LastSegmentNoSlash | wrappers/couch_wt.cc:103-105 | a name without '/' is its own file name |
| CouchWt.FileOnly | wrappers/couch_wt.cc:96-106 | the backwards scan for the last '/' yields LastSegment of a non-empty name |
| CouchWt.TableName | wrappers/couch_wt.cc:108 | the table name is "table:" followed by the file name without directory |
| CouchWt.TableConfig | wrappers/couch_wt.cc:109-119 | the LSM layout exactly when indexing_type is 1, the B-tree layout otherwise |
| CouchWt.CommitConfig | wrappers/couch_wt.cc:229 | the commit configuration is "sync" exactly when the sync flag is nonzero, NULL otherwise |
| CouchWt.Unpack | wrappers/couch_wt.cc:210-217 | a value that unpacks splits into a u16-length-prefixed part and the rest |
| CouchWt.Pack | wrappers/couch_wt.cc:210-217 | the packed value is 2 + metalen + data.size bytes long and unpacks to its metadata and body |
| CouchWt.PackUnpack | wrappers/couch_wt.cc:210-217 | every value that unpacks is the packing of its parts |
| CouchWt.StoredValue | wrappers/couch_wt.cc:210-217 | the stored value is 2 + 21 + rev_meta.size + data.size bytes long |
| CouchWt.StoredValueReadsBack | wrappers/couch_wt.cc:210-217 | a stored value unpacks to the document's body and to metadata that decodes to the saved fields |
| CouchWt.InsertAllAppend | wrappers/couch_wt.cc:220 | one more insert applies to the contents after the earlier inserts |
| CouchWt.InsertAllLastWrite | wrappers/couch_wt.cc:205-226 | after a run of inserts, a key holds the value of its last accepted insert |
| CouchWt.InsertAllUntouched | wrappers/couch_wt.cc:205-226 | a key without an accepted insert keeps its value or its absence |
| CouchWt.InsertEventsAt | wrappers/couch_wt.cc:220 | the j-th insert call carries the j-th pair and succeeds exactly when its key is accepted |
| CouchWt.InsertEventsAppend | wrappers/couch_wt.cc:220 | one more insert appends one call |
| CouchWt.WtSession.BeginTransaction | wrappers/couch_wt.cc:202-203 | begin opens a transaction that sees the committed contents |
| CouchWt.WtSession.Insert | wrappers/couch_wt.cc:220 | insert returns 0 and writes the pair exactly when the key is accepted |
| CouchWt.WtSession.CommitTransaction | wrappers/couch_wt.cc:229-230 | commit makes the transaction's view the committed contents |
| CouchWt.WtSession.Search | wrappers/couch_wt.cc:288-294 | search finds the committed value exactly when the key is present |
| CouchWt.BatchAt | wrappers/couch_wt.cc:205-217 | the j-th pair of a save is the j-th document's id and its packed value |
| CouchWt.PackedPrefixStep | wrappers/couch_wt.cc:205-217 | the next document's pair extends the pairs inserted so far |
| CouchWt.PackedIsBatch | wrappers/couch_wt.cc:205-217 | the pairs inserted for the first documents are the matching prefix of the batch |
| CouchWt.FirstRefusedIsFirst | wrappers/couch_wt.cc:220-223 | every document before the first refusal is accepted, and the document at it is refused |
| CouchWt.ClearedPrefixStep | wrappers/couch_wt.cc:225 | clearing the next db_seq extends the cleared prefix and leaves the other records alone |
| CouchWt.Db.Open | wrappers/couch_wt.cc:96-124 | open sets the table name from the file name, picks the layout from the indexing type, and starts with sync = 1 |
| CouchWt.Db.SetSync | wrappers/couch_wt.cc:129-133 | set_sync replaces only the sync flag and returns SUCCESS |
| CouchWt.Db.Info | wrappers/couch_wt.cc:151-158 | db_info gives the handle's file name, zero counts, header position and last sequence, and the file size as space used |
| CouchWt.Db.SaveDocuments | wrappers/couch_wt.cc:191-233 | as written: one begin, one insert per document in array order with the packed value, then one commit with "sync" exactly when sync is nonzero; db_seq cleared in every record and nothing else changed; the committed contents are the accepted inserts only; always SUCCESS |
| CouchWt.Db.SaveDocumentsAtomic | wrappers/couch_wt.cc:220-223 | the corrected save: SUCCESS exactly when every insert is accepted, and then the whole batch is committed, every db_seq is cleared, and the calls are begin, the inserts in order, commit; otherwise WRITE error with the committed contents unchanged, the calls begin, the inserts up to and including the first refused one, rollback, and db_seq cleared in exactly the records before the refused one |
| CouchWt.Db.InsertUntilRefused | wrappers/couch_wt.cc:205-226 | the insert loop of the corrected save stops at the first refused insert, whose index it returns; the inserts issued are the batch's up to that one, and db_seq is cleared in exactly the records before it |
| CouchWt.Db.OpenDocument | wrappers/couch_wt.cc:285-303 | the stored value verbatim, length prefix and metadata included, under the requested id |
| CouchWt.Db.CommitDb | wrappers/couch_wt.cc:323-326 | commit returns SUCCESS and changes nothing |
| CouchWt.Db.CompactDbEx | wrappers/couch_wt.cc:328-333 | compact returns SUCCESS and changes nothing |
| CouchWt.SavedDocumentOpens | wrappers/couch_wt.cc:205-232 | after a save, a document whose insert was accepted and not overwritten later in the batch is stored as its packed value |
| CouchWt.PartialBatchCommitted | wrappers/couch_wt.cc:220-223 | for a save of three documents whose second insert is refused, the committed contents hold the first and third documents and not the second |

## Left out

- I/O is not modelled.
  - `couchstore_open_conn` creates a directory with `mkdir` and opens the connection.
  - `stat` supplies the file size in `db_info`; the model takes it as the `spaceUsed` parameter.
  - `fdb_estimate_space_used` is not modelled.
- The ForestDB `db_info` reads the file name through a pointer offset into the engine's private handle (wrappers/couch_fdb.cc:144-154). It depends on a foreign struct layout, so `couchstore_db_info` of that binding is not modelled.
- Logging (`logCallbackFunc`, the `printf` calls) is not modelled. Neither are `malloc`/`free` lifetimes, `close_db`, `free_document` and `free_docinfo`.
- The process-wide setters are not modelled as setters. ForestDB's are folded into the `Settings` record passed to open. WiredTiger's `indexing_type` is a parameter of `Open`.
- The shared global connection and any concurrency are not modelled.
- The ForestDB open overwrites `fdb_open`'s status with that of `fdb_set_log_callback` (wrappers/couch_fdb.cc:112-115), so an open failure is not detected. The model's open always succeeds.
- Engine internals are not modelled. Sequence numbers and offsets are whatever the stand-in assigns, and nothing is claimed about their order. WiredTiger's `create` on an existing table keeps the table: `stored` is whatever the table holds.
- The 256-byte `fileonly` and `table_name` stack buffers are not modelled: file names are unbounded.
- `couchstore_save_document` and `couchstore_compact_db` are not modelled. Each only forwards to the batch call with one document, or with default arguments.
- CouchFdb.Db.SaveDocuments requires at least one document, because the status the source returns for zero documents is uninitialised. It also requires every record to fit the 256-byte metadata buffer, which the source never checks.
- CouchFdb.Db.SaveDocuments models the build with the `assert(status == FDB_RESULT_SUCCESS)` of wrappers/couch_fdb.cc:203 compiled out. A refused set does not stop the loop, and only the last set decides the status, so an earlier refusal is not reported. In a build that keeps the assertion, a refused set aborts the process; that build is not modelled.
- CouchWt.Db.SaveDocuments requires every record to fit the 256-byte metadata buffer, which the source never checks.
- CouchFdb.Db.DocinfoById, DocinfosById and DocinfosBySequence require every requested key or sequence number to be present. The source dereferences a NULL metadata pointer otherwise.
- CouchFdb.Db.DocinfoById, DocinfosById and DocinfosBySequence also require MetasDecodable(), which covers every stored metadata blob and not only the requested ones.
- CouchFdb.Db.DocinfosBySequence requires every stored key to be at most 4096 bytes. The engine copies the key into the 4096-byte `keybuf` (wrappers/couch_fdb.cc:340, 351), which a longer key overflows.
- CouchWt.Db.OpenDocument requires the key to be present. The source asserts that the search succeeds.
- CouchFdb.Db.OpenDocument returns an empty body on DOC_NOT_FOUND, where the source returns the engine's NULL body with an unset length.
- CouchFdb.Db.DocinfosById and DocinfosBySequence: the capacity of the reused scratch record is stated per step, by DecodeGrowing, and not as a trace over the whole loop. `realloc`'s preservation of the old contents is not modelled, because every byte used is rewritten.
- The callback of the batch readers is modelled as the sequence of records it receives (`delivered`). What the callback does with them is not modelled.

## Findings

| source | as written | input that shows it | evidently intended | confidence | as-written member | corrected member |
|---|---|---|---|---|---|---|
| wrappers/couch_wt.cc:220-223 | a failed insert only prints "ERR"; the loop goes on, commits the transaction and returns SUCCESS | three documents with keys [1], [2], [3], where the engine refuses [2]: [1] and [3] are committed, [2] is not, and the save reports SUCCESS | the batch is committed whole or not at all, and a refused insert is reported as a write error | not executed | CouchWt.PartialBatchCommitted | CouchWt.Db.SaveDocumentsAtomic |
