// domain.FileMetadata as the mutable record that callers and repositories share.

module Records {
  import opened Domain

  class FileMetadata {
    var id: int
    var fileName: string
    var fileSize: int
    var tenantId: string
    var status: TransferStatus
    var source: string
    var tags: seq<string>
    var createdAt: int
    var updatedAt: int

    /** The fields the caller filled in. */
    function Meta(): Metadata
      reads this
    {
      Metadata(fileName, fileSize, tenantId, status, source, tags)
    }

    constructor (m: Metadata)
      ensures Meta() == m && id == 0 && createdAt == 0 && updatedAt == 0
    {
      id, createdAt, updatedAt := 0, 0, 0;
      fileName, fileSize, tenantId := m.fileName, m.fileSize, m.tenantId;
      status, source, tags := m.status, m.source, m.tags;
    }
  }
}
