/**
 * The couchstore binding over the log-structured engine (ForestDB).
 *
 * The engine is a recording stand-in: a map from key to stored record and a
 * log of every `fdb_set` it received.  It assigns a sequence number and an
 * offset to every write; the binding promises nothing about their order.
 */
module CouchFdb {
  import opened Bytes
  import opened Optional
  import opened CouchTypes
  import opened Codec

  /** Capacity of the reused metadata scratch record in the batch readers. */
  const ScratchInitialCapacity: nat := 256

  /** Size of the stack buffer receiving the engine's key in a by-sequence read. */
  const MaxKeyLen: nat := 4096

  const Uint64Width: nat := 8  // sizeof(uint64_t)
  const IntWidth: nat := 4     // sizeof(int)

  /** Where the readers look for rev_meta.size inside a stored metadata blob. */
  const MetaOffset: nat := Uint64Width + IntWidth + ContentMetaWidth

  /**
   * The readers find rev_meta.size where the encoder wrote it.  This rests
   * on `deleted` being int-sized (DeletedWidth == IntWidth).
   */
  lemma MetaOffsetLocatesSize(d: DocInfo)
    requires Encodable(d)
    ensures MetaOffset == SizeOffset
    ensures |Encode(d)| >= MetaOffset + Uint64Width
    ensures FromLittleEndian(Encode(d)[MetaOffset..MetaOffset + Uint64Width]) == d.revMeta.size
  {
    EncodeIsDecodable(d);
  }

  // ---------------------------------------------------------------------
  // Open-time configuration
  // ---------------------------------------------------------------------

  datatype CompactionMode = CompactionAuto | CompactionManual
  datatype Durability = DurabilityNone | DurabilityOdirect | DurabilityAsync | DurabilityOdirectAsync
  datatype SeqTreeOpt = SeqTreeUse | SeqTreeNotUse

  /**
   * The fields of the engine's `fdb_config` that open touches, at the widths
   * the engine declares them (threshold uint8_t, chunk size uint16_t).
   */
  datatype FdbConfig = FdbConfig(
    compactionMode: CompactionMode,
    compactionThreshold: uint8,
    chunksize: uint16,
    buffercacheSize: uint64,
    walThreshold: uint64,
    seqtreeOpt: SeqTreeOpt,
    durabilityOpt: Durability,
    compressDocumentBody: bool,
    walFlushBeforeCommit: bool)

  /**
   * The process-wide settings of this binding (config_flags, cache_size,
   * c_auto, c_threshold, wal_size), passed to open as one record.
   */
  datatype Settings = Settings(
    configFlags: bv64,
    cacheSize: uint64,
    compactionAuto: int32,
    compactionThreshold: uint64,
    walSize: uint64)

  /** The settings before any setter runs. */
  const DefaultSettings := Settings(0, 0, 1, 30, 4096)

  /** Open flag bit selecting durability NONE. */
  const OpenFlagNoSync: bv64 := 0x10

  /** config_flags bit requesting a WAL flush before every commit. */
  const ConfigFlagWalFlush: bv64 := 0x1

  /**
   * The engine configuration `couchstore_open_db_ex` builds from the
   * engine's defaults, the settings and the open flags.
   */
  function OpenConfig(s: Settings, flags: bv64, defaults: FdbConfig): (c: FdbConfig)
    ensures c.compactionMode == CompactionAuto <==> s.compactionAuto != 0
    ensures c.compactionThreshold
      == if s.compactionAuto != 0 then s.compactionThreshold % TWO_8 else defaults.compactionThreshold
    ensures c.chunksize == Uint64Width && c.seqtreeOpt == SeqTreeNotUse && !c.compressDocumentBody
    ensures c.buffercacheSize == s.cacheSize && c.walThreshold == s.walSize
    ensures c.durabilityOpt == DurabilityNone <==> flags & OpenFlagNoSync != 0
    ensures c.durabilityOpt == DurabilityNone || c.durabilityOpt == DurabilityAsync
    ensures c.walFlushBeforeCommit <==> s.configFlags & ConfigFlagWalFlush != 0 || defaults.walFlushBeforeCommit
  {
    var c0 := if s.compactionAuto != 0
      then defaults.(compactionMode := CompactionAuto, compactionThreshold := (s.compactionThreshold % TWO_8) as uint8)
      else defaults.(compactionMode := CompactionManual);
    var c1 := c0.(chunksize := Uint64Width, buffercacheSize := s.cacheSize,
                  walThreshold := s.walSize, seqtreeOpt := SeqTreeNotUse);
    var c2 := c1.(durabilityOpt := if flags & OpenFlagNoSync != 0 then DurabilityNone else DurabilityAsync);
    var c3 := c2.(compressDocumentBody := false);
    if s.configFlags & ConfigFlagWalFlush != 0 then c3.(walFlushBeforeCommit := true) else c3
  }

  /** Open flags other than bit 0x10 do not change the configuration. */
  lemma OpenConfigIgnoresOtherFlags(s: Settings, f1: bv64, f2: bv64, defaults: FdbConfig)
    requires f1 & OpenFlagNoSync == f2 & OpenFlagNoSync
    ensures OpenConfig(s, f1, defaults) == OpenConfig(s, f2, defaults)
  {
    assert (f1 & OpenFlagNoSync != 0) == (f2 & OpenFlagNoSync != 0);
  }

  /**
   * Opening before any setter has run asks for automatic compaction at a
   * 30% threshold and a 4096-entry write-ahead log, with no buffer cache.
   */
  lemma DefaultOpenConfig(flags: bv64, defaults: FdbConfig)
    ensures var c := OpenConfig(DefaultSettings, flags, defaults);
      && c.compactionMode == CompactionAuto && c.compactionThreshold == 30
      && c.walThreshold == 4096 && c.buffercacheSize == 0
      && (c.walFlushBeforeCommit <==> defaults.walFlushBeforeCommit)
  {
  }

  // ---------------------------------------------------------------------
  // The engine
  // ---------------------------------------------------------------------

  /** One stored document: metadata blob, body, tombstone flag and the engine-assigned position. */
  datatype FdbRecord = FdbRecord(meta: seq<byte>, body: seq<byte>, deleted: bool, seqnum: uint64, offset: uint64)

  /** One `fdb_set` call: what was passed in and what came back. */
  datatype SetCall = SetCall(
    key: Key, meta: seq<byte>, body: seq<byte>, deleted: bool,
    ok: bool, seqnum: uint64, offset: uint64)

  /** The store after one set call: a successful call stores its record under its key. */
  function Applied(m: map<Key, FdbRecord>, c: SetCall): map<Key, FdbRecord>
  {
    if c.ok then m[c.key := FdbRecord(c.meta, c.body, c.deleted, c.seqnum, c.offset)] else m
  }

  /** Every stored metadata blob decodes. */
  ghost predicate AllDecodable(m: map<Key, FdbRecord>)
  {
    forall k {:trigger Decodable(m[k].meta)} :: k in m ==> Decodable(m[k].meta)
  }

  /** The store after a sequence of set calls, in order. */
  function Replay(m: map<Key, FdbRecord>, calls: seq<SetCall>): map<Key, FdbRecord>
    decreases |calls|
  {
    if calls == [] then m else Applied(Replay(m, calls[..|calls| - 1]), calls[|calls| - 1])
  }

  /** Replaying one more call applies it to the replayed store. */
  lemma ReplayAppend(m: map<Key, FdbRecord>, calls: seq<SetCall>, c: SetCall)
    ensures Replay(m, calls + [c]) == Applied(Replay(m, calls), c)
  {
    assert (calls + [c])[..|calls|] == calls;
  }

  /** The last successful write of a key decides what the store holds for it. */
  lemma {:induction false} ReplayLastWrite(m: map<Key, FdbRecord>, calls: seq<SetCall>, j: nat)
    requires j < |calls| && calls[j].ok
    requires forall l :: j < l < |calls| ==> !(calls[l].ok && calls[l].key == calls[j].key)
    ensures var c := calls[j];
      c.key in Replay(m, calls)
      && Replay(m, calls)[c.key] == FdbRecord(c.meta, c.body, c.deleted, c.seqnum, c.offset)
    decreases |calls|
  {
    if j < |calls| - 1 {
      ReplayLastWrite(m, calls[..|calls| - 1], j);
    }
  }

  /** A key no successful call wrote keeps its old entry (or absence). */
  lemma {:induction false} ReplayUntouched(m: map<Key, FdbRecord>, calls: seq<SetCall>, k: Key)
    requires forall l :: 0 <= l < |calls| ==> !(calls[l].ok && calls[l].key == k)
    ensures k in Replay(m, calls) <==> k in m
    ensures k in m ==> Replay(m, calls)[k] == m[k]
    decreases |calls|
  {
    if calls != [] {
      ReplayUntouched(m, calls[..|calls| - 1], k);
    }
  }

  /** Writes of decodable blobs keep every stored blob decodable. */
  lemma {:induction false} ReplayKeepsDecodable(m: map<Key, FdbRecord>, calls: seq<SetCall>)
    requires forall j :: 0 <= j < |calls| ==> Decodable(calls[j].meta)
    ensures AllDecodable(m) ==> AllDecodable(Replay(m, calls))
    decreases |calls|
  {
    if calls != [] {
      ReplayKeepsDecodable(m, calls[..|calls| - 1]);
    }
  }

  /** The engine handle behind a database. */
  class FdbHandle {
    const config: FdbConfig
    /** Keys whose write the engine rejects (a fault model of the engine). */
    const failing: set<Key>
    var records: map<Key, FdbRecord>
    var log: seq<SetCall>
    var nextSeq: uint64
    var nextOffset: uint64

    constructor (config: FdbConfig, stored: map<Key, FdbRecord>, failing: set<Key>)
      ensures this.config == config && this.failing == failing
      ensures records == stored && log == []
    {
      this.config := config;
      this.failing := failing;
      records := stored;
      log := [];
      nextSeq := 1;
      nextOffset := 0;
    }

    /** `fdb_set`. */
    method Set(key: Key, meta: seq<byte>, body: seq<byte>, deleted: bool)
      returns (ok: bool, seqnum: uint64, offset: uint64)
      modifies this
      ensures ok == (key !in failing)
      ensures log == old(log) + [SetCall(key, meta, body, deleted, ok, seqnum, offset)]
      ensures records == Applied(old(records), log[|log| - 1])
    {
      ok := key !in failing;
      if ok {
        seqnum, offset := nextSeq, nextOffset;
        nextSeq := (nextSeq + 1) % TWO_64;
        nextOffset := (nextOffset + |meta| + |body|) % TWO_64;
      } else {
        seqnum, offset := 0, 0;
      }
      log := log + [SetCall(key, meta, body, deleted, ok, seqnum, offset)];
      records := Applied(records, log[|log| - 1]);
    }

    /** `fdb_get_metaonly`: look a record up by key. */
    method GetMetaOnly(key: Key) returns (found: bool, rec: FdbRecord)
      ensures found == (key in records)
      ensures found ==> rec == records[key]
    {
      found := key in records;
      rec := if found then records[key] else FdbRecord([], [], false, 0, 0);
    }

    /** `fdb_get_metaonly_byseq`: look a record up by sequence number; its key goes to keybuf. */
    method GetMetaOnlyBySeq(seqnum: uint64, keybuf: array<byte>) returns (found: bool, keylen: nat, rec: FdbRecord)
      requires forall k :: k in records ==> |k| <= keybuf.Length
      modifies keybuf
      ensures found == exists k :: k in records && records[k].seqnum == seqnum
      ensures found ==>
        (keylen <= keybuf.Length && keybuf[..keylen] in records
         && records[keybuf[..keylen]] == rec && rec.seqnum == seqnum)
    {
      found := exists k :: k in records && records[k].seqnum == seqnum;
      if found {
        var k :| k in records && records[k].seqnum == seqnum;
        forall j | 0 <= j < |k| {
          keybuf[j] := k[j];
        }
        assert keybuf[..|k|] == k;
        keylen, rec := |k|, records[k];
      } else {
        keylen, rec := 0, FdbRecord([], [], false, 0, 0);
      }
    }

    /** `fdb_get`: a live (not deleted) record by key. */
    method Get(key: Key) returns (found: bool, rec: FdbRecord)
      ensures found == (key in records && !records[key].deleted)
      ensures found ==> rec == records[key]
    {
      found := key in records && !records[key].deleted;
      rec := if found then records[key] else FdbRecord([], [], false, 0, 0);
    }
  }

  // ---------------------------------------------------------------------
  // What the binding reads back
  // ---------------------------------------------------------------------

  /**
   * The record a metadata-only read hands over for key `id`: size, bp and
   * db_seq from the engine, the rest decoded from the stored blob.
   */
  function MetaOnlyRecord(id: Key, rec: FdbRecord): (r: DocInfo)
    requires Decodable(rec.meta)
    ensures r.id == id && r.size == |rec.body| && r.bp == rec.offset && r.dbSeq == rec.seqnum
    ensures r.revMeta.size == StoredRevMetaSize(rec.meta)
  {
    DecodeInto(rec.meta, ScratchHeader(id, rec)).value
  }

  /** Re-encoding a record read back reproduces the stored blob's header and rev_meta. */
  lemma MetaOnlyRecordReencodes(id: Key, rec: FdbRecord)
    requires Decodable(rec.meta)
    ensures Encodable(MetaOnlyRecord(id, rec))
    ensures Encode(MetaOnlyRecord(id, rec)) == rec.meta[..HeaderWidth + MetaOnlyRecord(id, rec).revMeta.size]
  {
    EncodeDecode(rec.meta, ScratchHeader(id, rec));
  }

  /** The scratch record after `memset` and the assignments of id, size, bp and db_seq. */
  function ScratchHeader(id: Key, rec: FdbRecord): DocInfo
  {
    DocInfo(id, rec.seqnum, 0, SizedBuf(None, 0), 0, 0, |rec.body|, rec.offset)
  }

  /**
   * Save then read: a record stored by a save reads back as the saved
   * DocInfo, with the engine's db_seq and bp, the body length as size, and
   * rev_meta NULL exactly when it is empty.
   */
  lemma SavedRecordReadsBack(info: DocInfo, doc: Doc, seqnum: uint64, offset: uint64)
    requires Encodable(info)
    ensures Decodable(Encode(info))
    ensures MetaOnlyRecord(doc.id, FdbRecord(Encode(info), doc.data, false, seqnum, offset))
      == info.(id := doc.id, size := |doc.data|, dbSeq := seqnum, bp := offset,
               revMeta := Normalized(info.revMeta))
  {
    EncodeIsDecodable(info);
    DecodeEncode(info, ScratchHeader(doc.id, FdbRecord(Encode(info), doc.data, false, seqnum, offset)));
  }

  /** Set call c is the one the save loop issues for doc, and `after` is `before` with c's position written back. */
  ghost predicate SavedAs(c: SetCall, doc: Doc, before: DocInfo, after: DocInfo)
  {
    && Encodable(before)
    && c.key == doc.id && c.meta == Encode(before) && c.body == doc.data && !c.deleted
    && after == before.(dbSeq := c.seqnum, bp := c.offset)
  }

  /** Each record delivered by a by-id read is the stored record under that id. */
  ghost predicate DeliveredById(recs: map<Key, FdbRecord>, ids: seq<Key>, delivered: seq<DocInfo>)
  {
    && |delivered| <= |ids|
    && forall j :: 0 <= j < |delivered| ==>
      && ids[j] in recs
      && Decodable(recs[ids[j]].meta)
      && delivered[j] == MetaOnlyRecord(ids[j], recs[ids[j]])
  }

  lemma DeliveredByIdStep(recs: map<Key, FdbRecord>, ids: seq<Key>, delivered: seq<DocInfo>)
    requires DeliveredById(recs, ids, delivered) && |delivered| < |ids|
    requires ids[|delivered|] in recs && Decodable(recs[ids[|delivered|]].meta)
    ensures DeliveredById(recs, ids, delivered + [MetaOnlyRecord(ids[|delivered|], recs[ids[|delivered|]])])
  {
  }

  /** Each record delivered by a by-sequence read is the stored record carrying that sequence number. */
  ghost predicate DeliveredBySeq(recs: map<Key, FdbRecord>, seqs: seq<uint64>, delivered: seq<DocInfo>)
  {
    && |delivered| <= |seqs|
    && forall j :: 0 <= j < |delivered| ==>
      && delivered[j].id in recs
      && recs[delivered[j].id].seqnum == seqs[j]
      && Decodable(recs[delivered[j].id].meta)
      && delivered[j] == MetaOnlyRecord(delivered[j].id, recs[delivered[j].id])
  }

  lemma DeliveredBySeqStep(recs: map<Key, FdbRecord>, seqs: seq<uint64>, delivered: seq<DocInfo>, info: DocInfo)
    requires DeliveredBySeq(recs, seqs, delivered) && |delivered| < |seqs|
    requires info.id in recs && recs[info.id].seqnum == seqs[|delivered|] && Decodable(recs[info.id].meta)
    requires info == MetaOnlyRecord(info.id, recs[info.id])
    ensures DeliveredBySeq(recs, seqs, delivered + [info])
  {
  }

  /** The first |calls| documents are saved by `calls`, and the rest of the records are untouched. */
  ghost predicate SavedPrefix(calls: seq<SetCall>, docs: seq<Doc>, before: seq<DocInfo>, after: seq<DocInfo>)
  {
    && |calls| <= |docs| == |before| == |after|
    && (forall j {:trigger SavedAs(calls[j], docs[j], before[j], after[j])} ::
          0 <= j < |calls| ==> SavedAs(calls[j], docs[j], before[j], after[j]))
    && (forall j :: |calls| <= j < |after| ==> after[j] == before[j])
  }

  lemma SavedPrefixStep(calls: seq<SetCall>, docs: seq<Doc>, before: seq<DocInfo>, after: seq<DocInfo>, c: SetCall)
    requires SavedPrefix(calls, docs, before, after) && |calls| < |docs|
    requires SavedAs(c, docs[|calls|], before[|calls|], before[|calls|].(dbSeq := c.seqnum, bp := c.offset))
    ensures SavedPrefix(calls + [c], docs, before, after[|calls| := before[|calls|].(dbSeq := c.seqnum, bp := c.offset)])
  {
  }

  /** A completed save writes only blobs that decode, so it keeps every stored blob decodable. */
  lemma SavedKeepsDecodable(m: map<Key, FdbRecord>, calls: seq<SetCall>, docs: seq<Doc>, before: seq<DocInfo>, after: seq<DocInfo>)
    requires SavedPrefix(calls, docs, before, after)
    ensures AllDecodable(m) ==> AllDecodable(Replay(m, calls))
  {
    forall j | 0 <= j < |calls|
      ensures Decodable(calls[j].meta)
    {
      assert SavedAs(calls[j], docs[j], before[j], after[j]);
      EncodeIsDecodable(before[j]);
    }
    ReplayKeepsDecodable(m, calls);
  }

  // ---------------------------------------------------------------------
  // The database handle
  // ---------------------------------------------------------------------

  class Db {
    const engine: FdbHandle
    const filename: string

    /**
     * `couchstore_open_db_ex`.  `stored` is what the file already holds and
     * `defaults` is the engine's default configuration.
     */
    constructor Open(filename: string, flags: bv64, settings: Settings, defaults: FdbConfig,
                     stored: map<Key, FdbRecord>, failing: set<Key>)
      ensures this.filename == filename && fresh(engine)
      ensures engine.config == OpenConfig(settings, flags, defaults)
      ensures engine.records == stored && engine.log == [] && engine.failing == failing
    {
      this.filename := filename;
      engine := new FdbHandle(OpenConfig(settings, flags, defaults), stored, failing);
    }

    /** Every stored metadata blob decodes. */
    ghost predicate MetasDecodable()
      reads engine
    {
      AllDecodable(engine.records)
    }

    /** One step of the save loop: encode the record, set it, and take back the engine's seqnum and offset. */
    method SaveOne(doc: Doc, info: DocInfo) returns (ok: bool, saved: DocInfo)
      requires Encodable(info)
      modifies engine
      ensures |engine.log| > 0 && engine.log == old(engine.log) + [engine.log[|engine.log| - 1]]
      ensures SavedAs(engine.log[|engine.log| - 1], doc, info, saved)
      ensures ok == engine.log[|engine.log| - 1].ok
      ensures engine.records == Applied(old(engine.records), engine.log[|engine.log| - 1])
    {
      var seqnum, offset;
      ok, seqnum, offset := engine.Set(doc.id, Encode(info), doc.data, false);
      saved := info.(dbSeq := seqnum, bp := offset);
    }

    /**
     * `couchstore_save_documents`: one set per document, in array order,
     * then the engine's seqnum and offset written back into infos[i].
     */
    method SaveDocuments(docs: seq<Doc>, infos: array<DocInfo>) returns (st: Status)
      requires 0 < |docs| == infos.Length
      requires forall i :: 0 <= i < infos.Length ==> Encodable(infos[i]) && FitsMetaBuf(infos[i])
      modifies engine, infos
      ensures |engine.log| == |old(engine.log)| + |docs|
      ensures engine.log[..|old(engine.log)|] == old(engine.log)
      ensures SavedPrefix(engine.log[|old(engine.log)|..], docs, old(infos[..]), infos[..])
      ensures engine.records == Replay(old(engine.records), engine.log[|old(engine.log)|..])
      ensures st == Success || st == ErrorAllocFail
      ensures st == Success <==> engine.log[|engine.log| - 1].ok
      ensures old(MetasDecodable()) ==> MetasDecodable()
    {
      ghost var before := infos[..];
      ghost var log0 := engine.log;
      ghost var records0 := engine.records;
      ghost var calls: seq<SetCall> := [];
      var ok := false;  // the source leaves `status` unset until the first set
      var i := 0;
      while i < |docs|
        invariant 0 <= i <= |docs| && |calls| == i
        invariant engine.log == log0 + calls
        invariant SavedPrefix(calls, docs, before, infos[..])
        invariant engine.records == Replay(records0, calls)
        invariant i > 0 ==> ok == calls[i - 1].ok
      {
        ghost var pre := infos[..];
        var saved;
        ok, saved := SaveOne(docs[i], infos[i]);
        ghost var c := engine.log[|engine.log| - 1];
        infos[i] := saved;
        assert infos[..] == pre[i := before[i].(dbSeq := c.seqnum, bp := c.offset)];
        SavedPrefixStep(calls, docs, before, pre, c);
        ReplayAppend(records0, calls, c);
        assert engine.log == log0 + (calls + [c]);
        calls := calls + [c];
        i := i + 1;
      }
      assert engine.log[|log0|..] == calls;
      SavedKeepsDecodable(records0, calls, docs, before, infos[..]);
      st := if ok then Success else ErrorAllocFail;
    }

    /**
     * One step of a batch reader: grow the scratch record's trailing
     * allocation when the stored rev_meta is larger (`realloc`), then clear
     * the record, set id, size, bp and db_seq, and decode the blob into it.
     */
    static method DecodeGrowing(id: Key, rec: FdbRecord, scratch: array<byte>) returns (info: DocInfo, grown: array<byte>)
      requires Decodable(rec.meta)
      modifies scratch
      ensures info == MetaOnlyRecord(id, rec)
      ensures grown.Length == if info.revMeta.size > scratch.Length then info.revMeta.size else scratch.Length
      ensures grown == scratch || fresh(grown)
    {
      var revMetaSize := FromLittleEndian(rec.meta[MetaOffset..MetaOffset + Uint64Width]);
      assert revMetaSize == StoredRevMetaSize(rec.meta);
      grown := scratch;
      if revMetaSize > scratch.Length {
        grown := new byte[revMetaSize];
      }
      info := DecodeIntoTrailing(rec.meta, ScratchHeader(id, rec), grown);
    }

    /** `couchstore_docinfo_by_id`: one metadata-only read into an exactly sized record. */
    method DocinfoById(id: Key) returns (st: Status, info: DocInfo)
      requires MetasDecodable() && id in engine.records
      ensures st == Success
      ensures info == MetaOnlyRecord(id, engine.records[id])
    {
      var found, rec := engine.GetMetaOnly(id);
      assert Decodable(engine.records[id].meta);
      var revMetaSize := FromLittleEndian(rec.meta[MetaOffset..MetaOffset + Uint64Width]);
      assert revMetaSize == StoredRevMetaSize(rec.meta);
      var trailing := new byte[revMetaSize];
      info := DecodeIntoTrailing(rec.meta, ScratchHeader(id, rec), trailing);
      st := Success;
    }

    /**
     * `couchstore_docinfos_by_id`.  `delivered` lists the records handed
     * to the callback, one call per id in order.  One scratch record is
     * reused throughout; DecodeGrowing keeps its trailing rev_meta space
     * large enough for every record copied into it.
     */
    method DocinfosById(ids: seq<Key>) returns (st: Status, delivered: seq<DocInfo>)
      requires MetasDecodable()
      requires forall i :: 0 <= i < |ids| ==> ids[i] in engine.records
      ensures st == Success
      ensures |delivered| == |ids| && DeliveredById(engine.records, ids, delivered)
    {
      ghost var recs := engine.records;
      var scratch := new byte[ScratchInitialCapacity];
      delivered := [];
      var i := 0;
      while i < |ids|
        invariant 0 <= i <= |ids| && |delivered| == i
        invariant DeliveredById(recs, ids, delivered)
        invariant ScratchInitialCapacity <= scratch.Length && fresh(scratch)
      {
        var found, rec := engine.GetMetaOnly(ids[i]);
        assert rec == recs[ids[i]];
        var info;
        info, scratch := DecodeGrowing(ids[i], rec, scratch);
        DeliveredByIdStep(recs, ids, delivered);
        delivered := delivered + [info];
        i := i + 1;
      }
      st := Success;
    }

    /** One step of DocinfosBySequence: find the record by sequence number, then decode it into the scratch record. */
    method ReadBySeq(seqnum: uint64, keybuf: array<byte>, scratch: array<byte>) returns (info: DocInfo, grown: array<byte>)
      requires MetasDecodable()
      requires forall k :: k in engine.records ==> |k| <= keybuf.Length
      requires exists k :: k in engine.records && engine.records[k].seqnum == seqnum
      modifies keybuf, scratch
      ensures info.id in engine.records && engine.records[info.id].seqnum == seqnum
      ensures Decodable(engine.records[info.id].meta) && info == MetaOnlyRecord(info.id, engine.records[info.id])
      ensures grown.Length == if info.revMeta.size > scratch.Length then info.revMeta.size else scratch.Length
      ensures grown == scratch || fresh(grown)
    {
      var found, keylen, rec := engine.GetMetaOnlyBySeq(seqnum, keybuf);
      var key := keybuf[..keylen];
      info, grown := DecodeGrowing(key, rec, scratch);
    }

    /**
     * `couchstore_docinfos_by_sequence`: like DocinfosById, but each record
     * is found by sequence number and its id is the key the engine returns.
     */
    method DocinfosBySequence(seqs: seq<uint64>) returns (st: Status, delivered: seq<DocInfo>)
      requires MetasDecodable()
      requires forall k :: k in engine.records ==> |k| <= MaxKeyLen
      requires forall i :: 0 <= i < |seqs| ==> exists k :: k in engine.records && engine.records[k].seqnum == seqs[i]
      ensures st == Success
      ensures |delivered| == |seqs| && DeliveredBySeq(engine.records, seqs, delivered)
    {
      ghost var recs := engine.records;
      var keybuf := new byte[MaxKeyLen];
      var scratch := new byte[ScratchInitialCapacity];
      delivered := [];
      var i := 0;
      while i < |seqs|
        invariant 0 <= i <= |seqs| && |delivered| == i
        invariant engine.records == recs
        invariant DeliveredBySeq(recs, seqs, delivered)
        invariant ScratchInitialCapacity <= scratch.Length && fresh(scratch)
        invariant keybuf.Length == MaxKeyLen && fresh(keybuf)
      {
        var info;
        info, scratch := ReadBySeq(seqs[i], keybuf, scratch);
        DeliveredBySeqStep(recs, seqs, delivered, info);
        delivered := delivered + [info];
        i := i + 1;
      }
      st := Success;
    }

    /** `couchstore_open_document`: the body of a live document, or DOC_NOT_FOUND. */
    method OpenDocument(id: Key) returns (st: Status, doc: Doc)
      ensures st == Success || st == ErrorDocNotFound
      ensures st == Success <==> id in engine.records && !engine.records[id].deleted
      ensures st == Success ==> doc == Doc(id, engine.records[id].body)
      ensures st == ErrorDocNotFound ==> doc == Doc(id, [])
    {
      var found, rec := engine.Get(id);
      st := if found then Success else ErrorDocNotFound;
      doc := Doc(id, if found then rec.body else []);
    }
  }
}
