/**
 * The couchstore API's records, shared by both engine bindings.
 *
 * Pointers into caller or engine memory (`sized_buf`) are modelled as the
 * byte sequences they view; a NULL pointer is `None`.
 */
module CouchTypes {
  import opened Bytes
  import opened Optional

  /** A document key. */
  type Key = seq<byte>

  /** A `Doc`: the key and the body. */
  datatype Doc = Doc(id: seq<byte>, data: seq<byte>)

  /** A `sized_buf`: a possibly NULL pointer and a `size_t` length. */
  datatype SizedBuf = SizedBuf(buf: Option<seq<byte>>, size: uint64)
  {
    /** A non-empty buffer points at exactly `size` readable bytes. */
    predicate Valid()
    {
      size > 0 ==> buf.Some? && |buf.value| == size
    }
  }

  /** A `DocInfo`: the per-document metadata record. */
  datatype DocInfo = DocInfo(
    id: seq<byte>,
    dbSeq: uint64,
    revSeq: uint64,
    revMeta: SizedBuf,
    deleted: int32,
    contentMeta: uint8,
    size: nat,
    bp: uint64)

  /** A `DbInfo` snapshot. */
  datatype DbInfo = DbInfo(
    filename: string,
    spaceUsed: nat,
    docCount: nat,
    deletedCount: nat,
    headerPosition: nat,
    lastSequence: nat)

  /** The `couchstore_error_t` codes the two bindings return. */
  datatype Status =
    | Success
    | ErrorOpenFile
    | ErrorDocNotFound
    | ErrorAllocFail
    | ErrorWrite
}
