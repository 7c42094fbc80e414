/**
 * The couchstore binding over the cursor/transaction engine (WiredTiger).
 *
 * A document is stored as one value, `[metalen:u16][meta][body]`, under its
 * id.  The engine's session and cursor on the database's table are one
 * recording stand-in: the committed contents, the view of the open
 * transaction, and a log of the transaction calls it received.
 */
module CouchWt {
  import opened Bytes
  import opened Optional
  import opened CouchTypes
  import opened Codec

  /** Width of the length prefix of a stored value: sizeof(uint16_t). */
  const MetaLenWidth: nat := 2

  const TablePrefix: string := "table:"

  /** Table layout for `indexing_type == 1`: an LSM tree. */
  const LsmTableConfig: string :=
    "type=lsm,split_pct=100,leaf_item_max=1KB,internal_page_max=4KB,leaf_page_max=4KB,"
    + "lsm=(chunk_size=4MB,bloom_config=(leaf_page_max=4MB))"

  /** Table layout for every other indexing type: the default B-tree. */
  const BtreeTableConfig: string :=
    "split_pct=100,leaf_item_max=1KB,internal_page_max=4KB,leaf_page_max=4KB"

  /** Commit configuration of a durable commit. */
  const SyncCommitConfig: string := "sync"

  // ---------------------------------------------------------------------
  // Open: table name and table layout
  // ---------------------------------------------------------------------

  /** The part of a path after its last '/', or the whole path when it has none. */
  function LastSegment(s: string): (r: string)
    ensures |r| <= |s| && r == s[|s| - |r|..]
    ensures '/' !in r
    ensures |r| == |s| || s[|s| - |r| - 1] == '/'
  {
    if s == [] then []
    else if s[|s| - 1] == '/' then []
    else LastSegment(s[..|s| - 1]) + [s[|s| - 1]]
  }

  /** The last segment starts right after the last '/'. */
  lemma LastSegmentAfterSlash(s: string, j: nat)
    requires j < |s| && s[j] == '/' && '/' !in s[j + 1..]
    ensures LastSegment(s) == s[j + 1..]
  {
  }

  /** A path without '/' is its own last segment. */
  lemma LastSegmentNoSlash(s: string)
    requires '/' !in s
    ensures LastSegment(s) == s
  {
  }

  /**
   * The backwards scan of `couchstore_open_db_ex` for the file name
   * without its directory.  The source never writes the result for an
   * empty name, so the name must be non-empty.
   */
  method FileOnly(filename: string) returns (fileonly: string)
    requires |filename| > 0
    ensures fileonly == LastSegment(filename)
  {
    fileonly := filename;
    var i := |filename| - 1;
    while i >= 0
      invariant -1 <= i < |filename|
      invariant '/' !in filename[i + 1..]
      invariant i < 0 ==> fileonly == filename
      decreases i
    {
      if filename[i] == '/' {
        fileonly := filename[i + 1..];
        LastSegmentAfterSlash(filename, i);
        return;
      }
      if i == 0 {
        fileonly := filename;
      }
      assert filename[i..] == [filename[i]] + filename[i + 1..];
      i := i - 1;
    }
    LastSegmentNoSlash(filename);
  }

  /** The table a database file maps to: the prefix, then the file name without directory. */
  function TableName(filename: string): (t: string)
    ensures |t| >= |TablePrefix| && t[..|TablePrefix|] == TablePrefix
    ensures t[|TablePrefix|..] == LastSegment(filename)
  {
    TablePrefix + LastSegment(filename)
  }

  /** The layout passed to table creation: the LSM layout exactly for indexing type 1. */
  function TableConfig(indexingType: int32): (c: string)
    ensures c == LsmTableConfig <==> indexingType == 1
    ensures c == BtreeTableConfig <==> indexingType != 1
  {
    if indexingType == 1 then LsmTableConfig else BtreeTableConfig
  }

  /** The commit configuration: "sync" exactly when the handle's sync flag is set, else NULL. */
  function CommitConfig(sync: int32): (c: Option<string>)
    ensures c.Some? <==> sync != 0
    ensures c.Some? ==> c.value == SyncCommitConfig
  {
    if sync != 0 then Some(SyncCommitConfig) else None
  }

  // ---------------------------------------------------------------------
  // The stored value
  // ---------------------------------------------------------------------

  /** Reads a stored value back into its metadata and body; None when the prefix overruns it. */
  function Unpack(v: seq<byte>): (r: Option<(seq<byte>, seq<byte>)>)
    ensures r.Some? ==> MetaLenWidth + |r.value.0| + |r.value.1| == |v| && |r.value.0| < TWO_16
  {
    if |v| < MetaLenWidth then None
    else
      var n := FromLittleEndian(v[..MetaLenWidth]);
      Pow256Values();
      if |v| < MetaLenWidth + n then None
      else Some((v[MetaLenWidth..MetaLenWidth + n], v[MetaLenWidth + n..]))
  }

  /** The value `couchstore_save_documents` stores: the 16-bit metadata length, the metadata, the body. */
  function Pack(meta: seq<byte>, body: seq<byte>): (v: seq<byte>)
    requires |meta| < TWO_16
    ensures |v| == MetaLenWidth + |meta| + |body|
    ensures Unpack(v) == Some((meta, body))
  {
    Pow256Values();
    var v := LittleEndian(|meta|, MetaLenWidth) + meta + body;
    assert v[..MetaLenWidth] == LittleEndian(|meta|, MetaLenWidth);
    FromLittleEndianOfImage(|meta|, MetaLenWidth);
    assert v[MetaLenWidth..MetaLenWidth + |meta|] == meta;
    assert v[MetaLenWidth + |meta|..] == body;
    v
  }

  /** Every value that unpacks is the packing of what it unpacks to. */
  lemma PackUnpack(v: seq<byte>)
    requires Unpack(v).Some?
    ensures Pack(Unpack(v).value.0, Unpack(v).value.1) == v
  {
    Pow256Values();
    ImageOfFromLittleEndian(v[..MetaLenWidth]);
    assert v == v[..MetaLenWidth] + Unpack(v).value.0 + Unpack(v).value.1;
  }

  /** A record the save can store: its rev_meta is consistent and it fits the 256-byte metadata buffer. */
  predicate Storable(d: DocInfo)
  {
    Encodable(d) && FitsMetaBuf(d)
  }

  /** The value stored for doc with metadata info. */
  function StoredValue(doc: Doc, info: DocInfo): (v: seq<byte>)
    requires Storable(info)
    ensures |v| == MetaLenWidth + HeaderWidth + info.revMeta.size + |doc.data|
  {
    Pow256Values();
    Pack(Encode(info), doc.data)
  }

  /**
   * What was stored reads back: the prefix delimits the encoded metadata,
   * which decodes to the saved fields, and the body follows it.
   */
  lemma StoredValueReadsBack(doc: Doc, info: DocInfo, e: DocInfo)
    requires Storable(info)
    ensures Unpack(StoredValue(doc, info)).Some?
    ensures Unpack(StoredValue(doc, info)).value.1 == doc.data
    ensures DecodeInto(Unpack(StoredValue(doc, info)).value.0, e)
      == Some(e.(revSeq := info.revSeq, deleted := info.deleted, contentMeta := info.contentMeta,
                 revMeta := Normalized(info.revMeta)))
  {
    DecodeEncode(info, e);
  }

  // ---------------------------------------------------------------------
  // The engine
  // ---------------------------------------------------------------------

  /** A call the session or cursor received. */
  datatype TxnEvent =
    | Begin
    | Insert(key: Key, value: seq<byte>, ok: bool)
    | Commit(config: Option<string>)
    | Rollback

  /** The contents after a run of inserts, of which those whose key is in `failing` are rejected. */
  function InsertAll(m: map<Key, seq<byte>>, batch: seq<(Key, seq<byte>)>, failing: set<Key>): map<Key, seq<byte>>
    decreases |batch|
  {
    if batch == [] then m
    else
      var rest := InsertAll(m, batch[..|batch| - 1], failing);
      var (k, v) := batch[|batch| - 1];
      if k in failing then rest else rest[k := v]
  }

  /** Inserting one more pair extends the run. */
  lemma InsertAllAppend(m: map<Key, seq<byte>>, batch: seq<(Key, seq<byte>)>, failing: set<Key>, k: Key, v: seq<byte>)
    ensures InsertAll(m, batch + [(k, v)], failing)
      == if k in failing then InsertAll(m, batch, failing) else InsertAll(m, batch, failing)[k := v]
  {
    assert (batch + [(k, v)])[..|batch|] == batch;
  }

  /** The last accepted insert of a key decides its value. */
  lemma {:induction false} InsertAllLastWrite(m: map<Key, seq<byte>>, batch: seq<(Key, seq<byte>)>, failing: set<Key>, j: nat)
    requires j < |batch| && batch[j].0 !in failing
    requires forall l :: j < l < |batch| ==> batch[l].0 != batch[j].0
    ensures batch[j].0 in InsertAll(m, batch, failing)
    ensures InsertAll(m, batch, failing)[batch[j].0] == batch[j].1
    decreases |batch|
  {
    if j < |batch| - 1 {
      InsertAllLastWrite(m, batch[..|batch| - 1], failing, j);
    }
  }

  /** A key with no accepted insert keeps its old value, or stays absent. */
  lemma {:induction false} InsertAllUntouched(m: map<Key, seq<byte>>, batch: seq<(Key, seq<byte>)>, failing: set<Key>, k: Key)
    requires forall l :: 0 <= l < |batch| ==> batch[l].0 != k || k in failing
    ensures k in InsertAll(m, batch, failing) <==> k in m
    ensures k in m ==> InsertAll(m, batch, failing)[k] == m[k]
    decreases |batch|
  {
    if batch != [] {
      InsertAllUntouched(m, batch[..|batch| - 1], failing, k);
    }
  }

  /** The insert calls a run of inserts makes. */
  function InsertEvents(batch: seq<(Key, seq<byte>)>, failing: set<Key>): (es: seq<TxnEvent>)
    ensures |es| == |batch|
    decreases |batch|
  {
    if batch == [] then []
    else
      var (k, v) := batch[|batch| - 1];
      InsertEvents(batch[..|batch| - 1], failing) + [Insert(k, v, k !in failing)]
  }

  /** The j-th call inserts the j-th pair and succeeds exactly when its key is not refused. */
  lemma {:induction false} InsertEventsAt(batch: seq<(Key, seq<byte>)>, failing: set<Key>, j: nat)
    requires j < |batch|
    ensures InsertEvents(batch, failing)[j] == Insert(batch[j].0, batch[j].1, batch[j].0 !in failing)
    decreases |batch|
  {
    if j < |batch| - 1 {
      InsertEventsAt(batch[..|batch| - 1], failing, j);
    }
  }

  /** One more insert extends the calls by one. */
  lemma {:induction false} InsertEventsAppend(batch: seq<(Key, seq<byte>)>, failing: set<Key>, k: Key, v: seq<byte>)
    ensures InsertEvents(batch + [(k, v)], failing) == InsertEvents(batch, failing) + [Insert(k, v, k !in failing)]
  {
    assert (batch + [(k, v)])[..|batch|] == batch;
  }

  /** The session and cursor on one table. */
  class WtSession {
    /** Keys whose insert the engine rejects (a fault model of the engine). */
    const failing: set<Key>
    /** The committed contents of the table. */
    var committed: map<Key, seq<byte>>
    /** The contents as the open transaction sees them. */
    var pending: map<Key, seq<byte>>
    var inTxn: bool
    var events: seq<TxnEvent>

    constructor (stored: map<Key, seq<byte>>, failing: set<Key>)
      ensures committed == stored && this.failing == failing && !inTxn && events == []
    {
      committed := stored;
      pending := stored;
      this.failing := failing;
      inTxn := false;
      events := [];
    }

    /** `begin_transaction`: the source asserts that it returns 0, so no transaction may be open. */
    method BeginTransaction()
      requires !inTxn
      modifies this
      ensures inTxn && pending == committed && committed == old(committed)
      ensures events == old(events) + [Begin]
    {
      inTxn := true;
      pending := committed;
      events := events + [Begin];
    }

    /** `cursor->insert`: 0 and the pair written, or an error code and nothing written. */
    method Insert(key: Key, value: seq<byte>) returns (ret: int)
      requires inTxn
      modifies this
      ensures ret == 0 <==> key !in failing
      ensures pending == InsertAll(old(pending), [(key, value)], failing)
      ensures inTxn && committed == old(committed)
      ensures events == old(events) + [TxnEvent.Insert(key, value, ret == 0)]
    {
      ret := if key in failing then -1 else 0;
      if ret == 0 {
        pending := pending[key := value];
      }
      events := events + [TxnEvent.Insert(key, value, ret == 0)];
    }

    /** `commit_transaction`: the transaction's view becomes the committed contents. */
    method CommitTransaction(config: Option<string>)
      requires inTxn
      modifies this
      ensures !inTxn && committed == old(pending)
      ensures events == old(events) + [Commit(config)]
    {
      committed := pending;
      inTxn := false;
      events := events + [Commit(config)];
    }

    /** `rollback_transaction`: the transaction's writes are dropped. */
    method RollbackTransaction()
      requires inTxn
      modifies this
      ensures !inTxn && committed == old(committed)
      ensures events == old(events) + [Rollback]
    {
      pending := committed;
      inTxn := false;
      events := events + [Rollback];
    }

    /** `cursor->search` then `get_value` outside a transaction. */
    method Search(key: Key) returns (found: bool, value: seq<byte>)
      ensures found == (key in committed)
      ensures found ==> value == committed[key]
    {
      found := key in committed;
      value := if found then committed[key] else [];
    }
  }

  // ---------------------------------------------------------------------
  // The database handle
  // ---------------------------------------------------------------------

  /** Every record of a batch can be stored. */
  ghost predicate AllStorable(infos: seq<DocInfo>)
  {
    forall j :: 0 <= j < |infos| ==> Storable(infos[j])
  }

  /** The (key, value) pairs a save of docs with metadata infos inserts, in order. */
  function Batch(docs: seq<Doc>, infos: seq<DocInfo>): (b: seq<(Key, seq<byte>)>)
    requires |docs| == |infos| && AllStorable(infos)
    ensures |b| == |docs|
    decreases |docs|
  {
    if docs == [] then []
    else
      var n := |docs| - 1;
      Batch(docs[..n], infos[..n]) + [(docs[n].id, StoredValue(docs[n], infos[n]))]
  }

  /** The j-th pair of a batch is the j-th document's id and packed value. */
  lemma {:induction false} BatchAt(docs: seq<Doc>, infos: seq<DocInfo>, j: nat)
    requires |docs| == |infos| && AllStorable(infos) && j < |docs|
    ensures Batch(docs, infos)[j] == (docs[j].id, StoredValue(docs[j], infos[j]))
    decreases |docs|
  {
    var n := |docs| - 1;
    if j < n {
      BatchAt(docs[..n], infos[..n], j);
    }
  }

  /** p is the pair a save inserts for doc with metadata info. */
  ghost predicate Packed(p: (Key, seq<byte>), doc: Doc, info: DocInfo)
  {
    Storable(info) && p == (doc.id, StoredValue(doc, info))
  }

  /** batch holds the pairs of the first |batch| documents. */
  ghost predicate PackedPrefix(batch: seq<(Key, seq<byte>)>, docs: seq<Doc>, infos: seq<DocInfo>)
  {
    && |batch| <= |docs| == |infos|
    && forall j {:trigger Packed(batch[j], docs[j], infos[j])} :: 0 <= j < |batch| ==> Packed(batch[j], docs[j], infos[j])
  }

  /** The pair of the next document extends the prefix. */
  lemma PackedPrefixStep(batch: seq<(Key, seq<byte>)>, docs: seq<Doc>, infos: seq<DocInfo>, p: (Key, seq<byte>))
    requires PackedPrefix(batch, docs, infos) && |batch| < |docs|
    requires Packed(p, docs[|batch|], infos[|batch|])
    ensures PackedPrefix(batch + [p], docs, infos)
  {
    var b := batch + [p];
    forall j | 0 <= j < |b|
      ensures Packed(b[j], docs[j], infos[j])
    {
      if j < |batch| {
        assert Packed(batch[j], docs[j], infos[j]);
      }
    }
  }

  /** A packed prefix is the matching prefix of the batch. */
  lemma PackedIsBatch(batch: seq<(Key, seq<byte>)>, docs: seq<Doc>, infos: seq<DocInfo>)
    requires PackedPrefix(batch, docs, infos) && AllStorable(infos)
    ensures batch == Batch(docs, infos)[..|batch|]
  {
    forall j | 0 <= j < |batch|
      ensures batch[j] == Batch(docs, infos)[j]
    {
      assert Packed(batch[j], docs[j], infos[j]);
      BatchAt(docs, infos, j);
    }
  }

  /** The index of the first document whose insert is refused, or |docs| when none is. */
  function FirstRefused(docs: seq<Doc>, failing: set<Key>): (k: nat)
    ensures k <= |docs|
  {
    if docs == [] || docs[0].id in failing then 0
    else 1 + FirstRefused(docs[1..], failing)
  }

  /** Every document before the first refusal is accepted, and the one at it is refused. */
  lemma {:induction false} FirstRefusedIsFirst(docs: seq<Doc>, failing: set<Key>)
    ensures forall j :: 0 <= j < FirstRefused(docs, failing) ==> docs[j].id !in failing
    ensures FirstRefused(docs, failing) < |docs| ==> docs[FirstRefused(docs, failing)].id in failing
  {
    if docs != [] && docs[0].id !in failing {
      FirstRefusedIsFirst(docs[1..], failing);
      forall j | 0 < j < FirstRefused(docs, failing)
        ensures docs[j].id !in failing
      {
        assert docs[j] == docs[1..][j - 1];
      }
    }
  }

  /** An accepted document at index i moves the first refusal past i. */
  lemma FirstRefusedPast(docs: seq<Doc>, failing: set<Key>, i: nat)
    requires i <= FirstRefused(docs, failing) && i < |docs| && docs[i].id !in failing
    ensures i + 1 <= FirstRefused(docs, failing)
  {
    FirstRefusedIsFirst(docs, failing);
  }

  /** A refused document at index i, with none refused before it, is the first refusal. */
  lemma FirstRefusedAt(docs: seq<Doc>, failing: set<Key>, i: nat)
    requires i <= FirstRefused(docs, failing) && i < |docs| && docs[i].id in failing
    ensures FirstRefused(docs, failing) == i
  {
    FirstRefusedIsFirst(docs, failing);
  }

  /** The first i records have db_seq cleared and the rest are untouched. */
  ghost predicate ClearedPrefix(i: nat, before: seq<DocInfo>, after: seq<DocInfo>)
  {
    && i <= |before| == |after|
    && (forall j :: 0 <= j < i ==> after[j] == before[j].(dbSeq := 0))
    && (forall j :: i <= j < |after| ==> after[j] == before[j])
  }

  /** Clearing the next record's db_seq extends the cleared prefix. */
  lemma ClearedPrefixStep(i: nat, before: seq<DocInfo>, pre: seq<DocInfo>, after: seq<DocInfo>)
    requires ClearedPrefix(i, before, pre) && i < |pre|
    requires after == pre[i := before[i].(dbSeq := 0)]
    ensures ClearedPrefix(i + 1, before, after)
  {
  }

  class Db {
    const filename: string
    /** The name and layout the table was created with. */
    const tableName: string
    const tableConfig: string
    const session: WtSession
    var sync: int32

    /**
     * `couchstore_open_db_ex`: derive the table name and layout, open a
     * session and cursor on the table, and start with durable commits.
     * `stored` is what the table already holds.
     */
    constructor Open(filename: string, indexingType: int32, stored: map<Key, seq<byte>>, failing: set<Key>)
      requires |filename| > 0
      ensures this.filename == filename
      ensures tableName == TableName(filename) && tableConfig == TableConfig(indexingType)
      ensures sync == 1
      ensures fresh(session) && session.committed == stored && session.failing == failing
      ensures !session.inTxn && session.events == []
    {
      var fileonly := FileOnly(filename);
      this.filename := filename;
      tableName := TablePrefix + fileonly;
      tableConfig := TableConfig(indexingType);
      session := new WtSession(stored, failing);
      sync := 1;
    }

    /** `couchstore_set_sync`: only the sync flag changes. */
    method SetSync(sync: int32) returns (st: Status)
      modifies this
      ensures this.sync == sync && st == Success
    {
      this.sync := sync;
      st := Success;
    }

    /** `couchstore_db_info`: the name of the file, no counts, and the file size from `stat`. */
    method Info(spaceUsed: nat) returns (st: Status, info: DbInfo)
      ensures st == Success
      ensures info.filename == filename && info.spaceUsed == spaceUsed
      ensures info.docCount == 0 && info.deletedCount == 0
      ensures info.headerPosition == 0 && info.lastSequence == 0
    {
      info := DbInfo(filename, spaceUsed, 0, 0, 0, 0);
      st := Success;
    }

    /**
     * `couchstore_save_documents` as written: one transaction, one insert
     * per document in array order, db_seq cleared in every record, and the
     * commit issued whether or not every insert succeeded.
     */
    method SaveDocuments(docs: seq<Doc>, infos: array<DocInfo>) returns (st: Status)
      requires |docs| == infos.Length && AllStorable(infos[..])
      requires !session.inTxn
      modifies session, infos
      ensures st == Success
      ensures ClearedPrefix(|docs|, old(infos[..]), infos[..])
      ensures session.committed == InsertAll(old(session.committed), Batch(docs, old(infos[..])), session.failing)
      ensures session.events == old(session.events) + [Begin]
        + InsertEvents(Batch(docs, old(infos[..])), session.failing) + [Commit(CommitConfig(sync))]
      ensures !session.inTxn
    {
      ghost var before := infos[..];
      ghost var refused := session.failing;
      ghost var committed := session.committed;
      session.BeginTransaction();
      ghost var begun := session.events;
      ghost var batch: seq<(Key, seq<byte>)> := [];
      var i := 0;
      while i < |docs|
        invariant 0 <= i <= |docs| && |batch| == i
        invariant session.inTxn && session.committed == committed
        invariant session.pending == InsertAll(committed, batch, refused)
        invariant session.events == begun + InsertEvents(batch, refused)
        invariant PackedPrefix(batch, docs, before)
        invariant ClearedPrefix(i, before, infos[..])
      {
        assert infos[i] == before[i];
        var value := StoredValue(docs[i], infos[i]);
        var ret := session.Insert(docs[i].id, value);
        // the source prints "ERR" when ret != 0 and carries on
        ghost var pre := infos[..];
        infos[i] := infos[i].(dbSeq := 0);
        assert infos[..] == pre[i := before[i].(dbSeq := 0)];
        ClearedPrefixStep(i, before, pre, infos[..]);
        InsertAllAppend(committed, batch, refused, docs[i].id, value);
        InsertEventsAppend(batch, refused, docs[i].id, value);
        assert Packed((docs[i].id, value), docs[i], before[i]);
        PackedPrefixStep(batch, docs, before, (docs[i].id, value));
        batch := batch + [(docs[i].id, value)];
        i := i + 1;
      }
      PackedIsBatch(batch, docs, before);
      assert batch == Batch(docs, before);
      session.CommitTransaction(CommitConfig(sync));
      st := Success;
    }

    /**
     * The save with the insert failure handled: the first rejected insert
     * rolls the transaction back and the save reports a write error, so a
     * batch is committed whole or not at all.
     */
    method SaveDocumentsAtomic(docs: seq<Doc>, infos: array<DocInfo>) returns (st: Status)
      requires |docs| == infos.Length && AllStorable(infos[..])
      requires !session.inTxn
      modifies session, infos
      ensures st == Success || st == ErrorWrite
      ensures st == Success <==> forall j :: 0 <= j < |docs| ==> docs[j].id !in session.failing
      ensures st == Success ==>
        session.committed == InsertAll(old(session.committed), Batch(docs, old(infos[..])), session.failing)
      ensures st == Success ==> ClearedPrefix(|docs|, old(infos[..]), infos[..])
      ensures st == Success ==>
        session.events == old(session.events) + [Begin]
          + InsertEvents(Batch(docs, old(infos[..])), session.failing) + [Commit(CommitConfig(sync))]
      ensures st == ErrorWrite ==> session.committed == old(session.committed)
      ensures st == ErrorWrite ==>
        var k := FirstRefused(docs, session.failing);
        && k < |docs|
        && session.events == old(session.events) + [Begin]
           + InsertEvents(Batch(docs, old(infos[..]))[..k + 1], session.failing) + [Rollback]
        && ClearedPrefix(k, old(infos[..]), infos[..])
      ensures !session.inTxn
    {
      ghost var before := infos[..];
      session.BeginTransaction();
      var k := InsertUntilRefused(docs, infos);
      FirstRefusedIsFirst(docs, session.failing);
      if k < |docs| {
        session.RollbackTransaction();
        return ErrorWrite;
      }
      assert Batch(docs, before)[..k] == Batch(docs, before);
      session.CommitTransaction(CommitConfig(sync));
      st := Success;
    }

    /**
     * The insert loop of the atomic save, inside its open transaction: the
     * documents are inserted in order, each accepted record has its db_seq
     * cleared, and the loop stops at the first refused insert.  k is the
     * index of that insert, or |docs| when every insert is accepted.
     */
    method InsertUntilRefused(docs: seq<Doc>, infos: array<DocInfo>) returns (k: nat)
      requires |docs| == infos.Length && AllStorable(infos[..])
      requires session.inTxn
      modifies session, infos
      ensures k == FirstRefused(docs, session.failing)
      ensures session.inTxn && session.committed == old(session.committed)
      ensures k == |docs| ==>
        session.pending == InsertAll(old(session.pending), Batch(docs, old(infos[..])), session.failing)
      ensures k == |docs| ==>
        session.events == old(session.events) + InsertEvents(Batch(docs, old(infos[..])), session.failing)
      ensures k < |docs| ==>
        session.events == old(session.events) + InsertEvents(Batch(docs, old(infos[..]))[..k + 1], session.failing)
      ensures ClearedPrefix(k, old(infos[..]), infos[..])
    {
      ghost var before := infos[..];
      ghost var refused := session.failing;
      ghost var pending := session.pending;
      ghost var begun := session.events;
      ghost var batch: seq<(Key, seq<byte>)> := [];
      k := 0;
      while k < |docs|
        invariant 0 <= k <= |docs| && |batch| == k
        invariant session.inTxn && session.committed == old(session.committed)
        invariant session.pending == InsertAll(pending, batch, refused)
        invariant session.events == begun + InsertEvents(batch, refused)
        invariant k <= FirstRefused(docs, refused)
        invariant PackedPrefix(batch, docs, before)
        invariant ClearedPrefix(k, before, infos[..])
      {
        assert infos[k] == before[k];
        var value := StoredValue(docs[k], infos[k]);
        var ret := session.Insert(docs[k].id, value);
        assert (ret == 0) == (docs[k].id !in refused);
        InsertEventsAppend(batch, refused, docs[k].id, value);
        ghost var tried := batch + [(docs[k].id, value)];
        assert session.events == begun + InsertEvents(tried, refused);
        assert Packed((docs[k].id, value), docs[k], before[k]);
        PackedPrefixStep(batch, docs, before, (docs[k].id, value));
        if ret != 0 {
          PackedIsBatch(tried, docs, before);
          FirstRefusedAt(docs, refused, k);
          return;
        }
        ghost var pre := infos[..];
        infos[k] := infos[k].(dbSeq := 0);
        assert infos[..] == pre[k := before[k].(dbSeq := 0)];
        ClearedPrefixStep(k, before, pre, infos[..]);
        InsertAllAppend(pending, batch, refused, docs[k].id, value);
        FirstRefusedPast(docs, refused, k);
        batch := tried;
        k := k + 1;
      }
      PackedIsBatch(batch, docs, before);
      assert batch == Batch(docs, before);
    }

    /**
     * `couchstore_open_document`: the stored value verbatim, length prefix
     * and metadata included, under the requested id.  The source asserts
     * that the search finds the key.
     */
    method OpenDocument(id: Key) returns (st: Status, doc: Doc)
      requires id in session.committed
      ensures st == Success && doc == Doc(id, session.committed[id])
    {
      var found, value := session.Search(id);
      doc := Doc(id, value);
      st := Success;
    }

    /** `couchstore_commit`: writes are committed by the save itself. */
    method CommitDb() returns (st: Status)
      ensures st == Success
    {
      st := Success;
    }

    /** `couchstore_compact_db_ex`: compaction is the engine's business. */
    method CompactDbEx(targetFilename: string, flags: bv64) returns (st: Status)
      ensures st == Success
    {
      st := Success;
    }
  }

  // ---------------------------------------------------------------------
  // Properties of a save
  // ---------------------------------------------------------------------

  /**
   * After a save, a document of the batch whose insert was accepted and
   * not overwritten later in the batch opens as its packed value, which
   * reads back as the saved metadata and body.
   */
  lemma SavedDocumentOpens(m: map<Key, seq<byte>>, docs: seq<Doc>, infos: seq<DocInfo>, failing: set<Key>, j: nat)
    requires |docs| == |infos| && AllStorable(infos)
    requires j < |docs| && docs[j].id !in failing
    requires forall l :: j < l < |docs| ==> docs[l].id != docs[j].id
    ensures docs[j].id in InsertAll(m, Batch(docs, infos), failing)
    ensures InsertAll(m, Batch(docs, infos), failing)[docs[j].id] == StoredValue(docs[j], infos[j])
  {
    var b := Batch(docs, infos);
    forall l | 0 <= l < |docs|
      ensures b[l] == (docs[l].id, StoredValue(docs[l], infos[l]))
    {
      BatchAt(docs, infos, l);
    }
    InsertAllLastWrite(m, b, failing, j);
  }

  /**
   * The as-written save commits a partial batch: for three documents with
   * keys [1], [2], [3] and the insert of [2] refused, the contents the save
   * commits hold [1] and [3] but not [2], and the save still reports success.
   */
  lemma PartialBatchCommitted(docs: seq<Doc>, infos: seq<DocInfo>)
    requires |docs| == |infos| == 3 && AllStorable(infos)
    requires docs[0].id == [1] && docs[1].id == [2] && docs[2].id == [3]
    ensures var m := InsertAll(map[], Batch(docs, infos), {[2]});
      [1] in m && [3] in m && [2] !in m
  {
    var b := Batch(docs, infos);
    BatchAt(docs, infos, 0);
    BatchAt(docs, infos, 1);
    BatchAt(docs, infos, 2);
    InsertAllLastWrite(map[], b, {[2]}, 0);
    InsertAllLastWrite(map[], b, {[2]}, 2);
    InsertAllUntouched(map[], b, {[2]}, [2]);
  }
}
