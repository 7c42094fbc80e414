/**
 * The document-metadata codec `_docinfo_to_buf` / `_buf_to_docinfo`, which
 * is word for word the same in both bindings.
 *
 * Layout, with no padding:
 *   rev_seq (8) | deleted (4) | content_meta (1) | rev_meta.size (8) | rev_meta bytes
 * The trailing bytes are absent when rev_meta.size is 0.  `db_seq` and `bp`
 * are not encoded: the engine supplies them.
 */
module Codec {
  import opened Bytes
  import opened Optional
  import opened CouchTypes

  const RevSeqWidth: nat := 8       // sizeof(uint64_t)
  const DeletedWidth: nat := 4      // sizeof(int)
  const ContentMetaWidth: nat := 1  // sizeof(couchstore_content_meta_flags), assumed to be uint8_t
  const SizeWidth: nat := 8         // sizeof(size_t)

  /** Where the encoder writes `rev_meta.size`. */
  const SizeOffset: nat := RevSeqWidth + DeletedWidth + ContentMetaWidth

  /** The fixed part of every encoding. */
  const HeaderWidth: nat := SizeOffset + SizeWidth

  /** The stack buffer both save loops encode into (META_BUF_MAXLEN, METABUF_MAXLEN). */
  const MetaBufMaxLen: nat := 256

  /** A record the encoder can read: its rev_meta pointer covers rev_meta.size bytes. */
  predicate Encodable(d: DocInfo)
  {
    d.revMeta.Valid()
  }

  /** A record whose encoding fits the 256-byte stack buffer. */
  predicate FitsMetaBuf(d: DocInfo)
  {
    HeaderWidth + d.revMeta.size <= MetaBufMaxLen
  }

  /** The bytes the encoder copies from rev_meta.buf. */
  function RevMetaBytes(m: SizedBuf): (r: seq<byte>)
    requires m.Valid()
    ensures |r| == m.size
  {
    if m.size > 0 then m.buf.value else []
  }

  /** rev_meta as the decoder leaves it: NULL exactly when the size is 0. */
  function Normalized(m: SizedBuf): (r: SizedBuf)
    requires m.Valid()
    ensures r.Valid() && r.size == m.size && RevMetaBytes(r) == RevMetaBytes(m)
    ensures r.buf.None? <==> r.size == 0
  {
    if m.size == 0 then SizedBuf(None, 0) else m
  }

  /** `_docinfo_to_buf`: the bytes written, whose count is the value returned. */
  function Encode(d: DocInfo): (r: seq<byte>)
    requires Encodable(d)
    ensures |r| == HeaderWidth + d.revMeta.size
  {
    Pow256Values();
    LittleEndian(d.revSeq, RevSeqWidth)
      + LittleEndian(Int32ToBits(d.deleted), DeletedWidth)
      + LittleEndian(d.contentMeta, ContentMetaWidth)
      + LittleEndian(d.revMeta.size, SizeWidth)
      + RevMetaBytes(d.revMeta)
  }

  /** Each field of an encoding sits at its fixed offset. */
  lemma EncodeFields(d: DocInfo)
    requires Encodable(d)
    ensures var r := Encode(d);
      && r[..RevSeqWidth] == LittleEndian(d.revSeq, RevSeqWidth)
      && r[RevSeqWidth..RevSeqWidth + DeletedWidth] == LittleEndian(Int32ToBits(d.deleted), DeletedWidth)
      && r[RevSeqWidth + DeletedWidth..SizeOffset] == LittleEndian(d.contentMeta, ContentMetaWidth)
      && r[SizeOffset..HeaderWidth] == LittleEndian(d.revMeta.size, SizeWidth)
      && r[HeaderWidth..] == RevMetaBytes(d.revMeta)
  {
    Pow256Values();
  }

  /** The rev_meta size recorded in an encoded buffer. */
  function StoredRevMetaSize(buf: seq<byte>): (n: nat)
    requires |buf| >= HeaderWidth
    ensures n < TWO_64
  {
    Pow256Values();
    FromLittleEndian(buf[SizeOffset..HeaderWidth])
  }

  /** A buffer holding the whole header and all the rev_meta bytes its size field announces. */
  predicate Decodable(buf: seq<byte>)
  {
    |buf| >= HeaderWidth && |buf| >= HeaderWidth + StoredRevMetaSize(buf)
  }

  /**
   * `_buf_to_docinfo(buf, size, d)`: overwrite rev_seq, deleted,
   * content_meta and rev_meta of d from buf, leaving the other fields.
   * The source reads past a short buffer; the model answers None instead.
   */
  function DecodeInto(buf: seq<byte>, d: DocInfo): (r: Option<DocInfo>)
    ensures r.Some? <==> Decodable(buf)
    ensures r.Some? ==>
      (r.value.id == d.id && r.value.dbSeq == d.dbSeq && r.value.size == d.size && r.value.bp == d.bp)
    ensures r.Some? ==>
      (r.value.revMeta.Valid() && r.value.revMeta.size == StoredRevMetaSize(buf)
       && (r.value.revMeta.buf.None? <==> r.value.revMeta.size == 0))
  {
    if !Decodable(buf) then None
    else
      Pow256Values();
      var size := StoredRevMetaSize(buf);
      Some(d.(
        revSeq := FromLittleEndian(buf[..RevSeqWidth]),
        deleted := BitsToInt32(FromLittleEndian(buf[RevSeqWidth..RevSeqWidth + DeletedWidth])),
        contentMeta := FromLittleEndian(buf[RevSeqWidth + DeletedWidth..SizeOffset]),
        revMeta := if size > 0 then SizedBuf(Some(buf[HeaderWidth..HeaderWidth + size]), size)
                   else SizedBuf(None, 0)))
  }

  /** An encoding is decodable. */
  lemma EncodeIsDecodable(d: DocInfo)
    requires Encodable(d)
    ensures Decodable(Encode(d)) && StoredRevMetaSize(Encode(d)) == d.revMeta.size
  {
    EncodeFields(d);
    Pow256Values();
    FromLittleEndianOfImage(d.revMeta.size, SizeWidth);
  }

  /**
   * Round trip: decoding an encoding into any record restores rev_seq,
   * deleted, content_meta, rev_meta.size and the rev_meta bytes, with
   * rev_meta.buf NULL exactly when the size is 0; nothing else changes.
   */
  lemma DecodeEncode(d: DocInfo, e: DocInfo)
    requires Encodable(d)
    ensures DecodeInto(Encode(d), e) == Some(e.(
      revSeq := d.revSeq, deleted := d.deleted, contentMeta := d.contentMeta,
      revMeta := Normalized(d.revMeta)))
  {
    var r := Encode(d);
    EncodeFields(d);
    EncodeIsDecodable(d);
    Pow256Values();
    DecodeFields(r, e);
    var x := DecodeInto(r, e).value;
    FromLittleEndianOfImage(d.revSeq, RevSeqWidth);
    FromLittleEndianOfImage(Int32ToBits(d.deleted), DeletedWidth);
    FromLittleEndianOfImage(d.contentMeta, ContentMetaWidth);
    assert x.deleted == d.deleted by {
      assert Int32ToBits(x.deleted) == Int32ToBits(d.deleted);
    }
    assert x.revMeta == Normalized(d.revMeta) by {
      assert r[HeaderWidth..HeaderWidth + d.revMeta.size] == r[HeaderWidth..];
    }
  }

  /**
   * The other direction: whatever a buffer decodes to encodes back to the
   * buffer's prefix, so the decoder reads every byte of the format and
   * nothing past it.
   */
  lemma EncodeDecode(buf: seq<byte>, e: DocInfo)
    requires DecodeInto(buf, e).Some?
    ensures var d := DecodeInto(buf, e).value;
      Encodable(d) && Encode(d) == buf[..HeaderWidth + d.revMeta.size]
  {
    var d := DecodeInto(buf, e).value;
    var r := Encode(d);
    DecodeFields(buf, e);
    EncodeFields(d);
    ImageOfFromLittleEndian(buf[..RevSeqWidth]);
    ImageOfFromLittleEndian(buf[RevSeqWidth..RevSeqWidth + DeletedWidth]);
    ImageOfFromLittleEndian(buf[RevSeqWidth + DeletedWidth..SizeOffset]);
    ImageOfFromLittleEndian(buf[SizeOffset..HeaderWidth]);
    SlicesDetermine(r, buf, RevSeqWidth, RevSeqWidth + DeletedWidth, SizeOffset, HeaderWidth);
  }

  /** The fields DecodeInto reads, each from its fixed offset. */
  lemma DecodeFields(buf: seq<byte>, e: DocInfo)
    requires DecodeInto(buf, e).Some?
    ensures var d := DecodeInto(buf, e).value;
      && d.revMeta.Valid()
      && |buf| >= HeaderWidth + d.revMeta.size
      && d.revSeq == FromLittleEndian(buf[..RevSeqWidth])
      && Int32ToBits(d.deleted) == FromLittleEndian(buf[RevSeqWidth..RevSeqWidth + DeletedWidth])
      && d.contentMeta == FromLittleEndian(buf[RevSeqWidth + DeletedWidth..SizeOffset])
      && d.revMeta.size == FromLittleEndian(buf[SizeOffset..HeaderWidth])
      && RevMetaBytes(d.revMeta) == buf[HeaderWidth..HeaderWidth + d.revMeta.size]
  {
    Pow256Values();
    BitsRoundTrip(FromLittleEndian(buf[RevSeqWidth..RevSeqWidth + DeletedWidth]));
  }

  /** Two sequences that agree on five consecutive slices are equal. */
  lemma SlicesDetermine(x: seq<byte>, y: seq<byte>, a: nat, b: nat, c: nat, e: nat)
    requires a <= b <= c <= e <= |x| <= |y|
    requires x[..a] == y[..a] && x[a..b] == y[a..b] && x[b..c] == y[b..c]
    requires x[c..e] == y[c..e] && x[e..] == y[e..|x|]
    ensures x == y[..|x|]
  {
    forall k | 0 <= k < |x|
      ensures x[k] == y[k]
    {
      if k < a {
        assert x[k] == x[..a][k];
      } else if k < b {
        assert x[k] == x[a..b][k - a];
      } else if k < c {
        assert x[k] == x[b..c][k - b];
      } else if k < e {
        assert x[k] == x[c..e][k - c];
      } else {
        assert x[k] == x[e..][k - e];
        assert y[k] == y[e..|x|][k - e];
      }
    }
  }

  /**
   * `_buf_to_docinfo` as the batch readers run it: the rev_meta bytes are
   * copied into the record's trailing allocation `trailing`, which must
   * hold them, and rev_meta.buf then views that allocation.
   */
  method DecodeIntoTrailing(buf: seq<byte>, d: DocInfo, trailing: array<byte>) returns (r: DocInfo)
    requires Decodable(buf)
    requires StoredRevMetaSize(buf) <= trailing.Length
    modifies trailing
    ensures DecodeInto(buf, d) == Some(r)
    ensures r.revMeta.size > 0 ==> trailing[..r.revMeta.size] == r.revMeta.buf.value
  {
    Pow256Values();
    var size := StoredRevMetaSize(buf);
    var i := 0;
    while i < size
      invariant 0 <= i <= size
      invariant trailing[..i] == buf[HeaderWidth..HeaderWidth + i]
    {
      trailing[i] := buf[HeaderWidth + i];
      i := i + 1;
    }
    r := d.(
      revSeq := FromLittleEndian(buf[..RevSeqWidth]),
      deleted := BitsToInt32(FromLittleEndian(buf[RevSeqWidth..RevSeqWidth + DeletedWidth])),
      contentMeta := FromLittleEndian(buf[RevSeqWidth + DeletedWidth..SizeOffset]),
      revMeta := if size > 0 then SizedBuf(Some(trailing[..size]), size) else SizedBuf(None, 0));
  }
}
