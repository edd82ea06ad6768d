// The vocabulary of internal/domain: files, metadata records, statuses.

module Domain {

  datatype Option<+T> = None | Some(value: T)

  newtype byte = x: int | 0 <= x < 256

  type Bytes = seq<byte>

  datatype TransferStatus = Pending | Processing | Completed | Failed

  /** Where a file's bytes come from: a buffer already in memory, or a pipe that another
      goroutine is still filling. */
  datatype Source = Buffer(bytes: Bytes) | Pipe

  datatype File = File(name: string, size: int, content: Source)

  /** The fields of FileMetadata that a caller fills in before the record is stored. */
  datatype Metadata = Metadata(
    fileName: string,
    fileSize: int,
    tenantId: string,
    status: TransferStatus,
    source: string,
    tags: seq<string>)

  /** File.ToMetadata when no tags are passed, as every caller in the use case does. */
  function ToMetadata(f: File, source: string, tenantId: string): Metadata {
    Metadata(f.name, f.size, if tenantId == "" then "default-tenant" else tenantId, Pending, source, ["auto-generated"])
  }

  predicate ValidFile(name: string, size: int) {
    name != "" && size >= 0
  }

  // One row of file_metadata.  The column tags may be NULL.
  datatype Row = Row(
    fileName: string,
    fileSize: int,
    status: TransferStatus,
    source: string,
    tags: Option<seq<string>>,
    createdAt: int,
    updatedAt: int)

  type Table = map<int, Row>

  /** The row that the INSERT in Create writes; tenantId has no column. */
  function NewRow(m: Metadata, now: int): Row {
    Row(m.fileName, m.fileSize, m.status, m.source, Some(m.tags), now, now)
  }

  /** The row that the UPDATE in UpdateStatus leaves in place of r. */
  function Restamped(r: Row, status: TransferStatus, now: int): Row {
    r.(status := status, updatedAt := now)
  }
}
