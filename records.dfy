/** Rows of the catalog's two tables and the file descriptor the browser hands to the upload page. */
module Records {

  /** A nullable value: `None` stands for SQL NULL and for JavaScript `undefined`/`null`. */
  datatype Option<+T> = None | Some(value: T) {
    function GetOr(default: T): T {
      match this
      case Some(v) => v
      case None => default
    }
  }

  type UserId = string
  type ResourceId = string

  /** The role string that unlocks the admin panel. */
  const AdminRole := "admin"

  /** A row of the `resources` table. `createdAt` is the row's creation timestamp as an ordinal. */
  datatype Resource = Resource(
    id: ResourceId,
    title: string,
    description: string,
    category: string,
    fileType: string,
    fileUrl: string,
    fileName: string,
    fileSize: nat,
    subject: Option<string>,
    course: Option<string>,
    downloadCount: nat,
    uploaderId: UserId,
    createdAt: int)

  /** A row of the `profiles` table. */
  datatype Profile = Profile(id: UserId, email: string, fullName: string, role: string, createdAt: int)

  /** A file chosen in the browser: its name, its declared MIME type and its size in bytes. */
  datatype FileDesc = FileDesc(name: string, mimeType: string, size: nat)

  function CreatedAt(r: Resource): int { r.createdAt }

  function DownloadsOf(r: Resource): nat { r.downloadCount }
}
