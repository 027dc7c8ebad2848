/** The upload page: the MIME allow-list and its mapping to file-type tags, the checks run
    when a file is chosen, the storage key, and the two-step intake (store the file, then
    insert its row) run when the form is submitted. */
module Upload {
  import opened Records
  import opened Text
  import opened Store

  const PdfMime := "application/pdf"
  const DocMime := "application/msword"
  const DocxMime := "application/vnd.openxmlformats-officedocument.wordprocessingml.document"
  const PptMime := "application/vnd.ms-powerpoint"
  const PptxMime := "application/vnd.openxmlformats-officedocument.presentationml.presentation"
  const ZipMime := "application/zip"

  /** The accepted declared content types (RFC 6838 media types, compared as plain strings). */
  const AllowedFileTypes: seq<string> := [PdfMime, DocMime, DocxMime, PptMime, PptxMime, ZipMime]

  /** The tag stored in `file_type` for each entry of `AllowedFileTypes`, position by position. */
  const FileTypeTags: seq<string> := ["PDF", "DOC", "DOCX", "PPT", "PPTX", "ZIP"]

  /** 50 MiB. */
  const MaxFileSize: nat := 50 * 1024 * 1024

  /** The `file_type` tag for a declared MIME type; anything unlisted is classified as PDF. */
  function GetFileType(mimeType: string): (tag: string)
    ensures tag in FileTypeTags
  {
    if mimeType == PdfMime then "PDF"
    else if mimeType == DocMime then "DOC"
    else if mimeType == DocxMime then "DOCX"
    else if mimeType == PptMime then "PPT"
    else if mimeType == PptxMime then "PPTX"
    else if mimeType == ZipMime then "ZIP"
    else "PDF"
  }

  /** Every allowed type has its own case: the i-th allowed type maps to the i-th tag. */
  lemma GetFileTypeTable(i: nat)
    requires i < |AllowedFileTypes|
    ensures GetFileType(AllowedFileTypes[i]) == FileTypeTags[i]
  {
    // Only the PDF and ZIP types have the same length, and they differ after "application/".
    assert |PdfMime| == 15 && |DocMime| == 18 && |DocxMime| == 71;
    assert |PptMime| == 29 && |PptxMime| == 73 && |ZipMime| == 15;
    assert PdfMime[12] == 'p' && ZipMime[12] == 'z';
  }

  /** Any type outside the allow-list falls through to the default case. */
  lemma GetFileTypeFallback(mimeType: string)
    requires mimeType !in AllowedFileTypes
    ensures GetFileType(mimeType) == "PDF"
  {
  }

  /** What choosing a file leads to. */
  datatype Verdict = Accepted | InvalidType | TooLarge

  /** The type check runs first, then the size check. */
  function CheckFile(f: FileDesc): (v: Verdict)
    ensures v == Accepted <==> f.mimeType in AllowedFileTypes && f.size <= MaxFileSize
    ensures v == InvalidType <==> f.mimeType !in AllowedFileTypes
  {
    if f.mimeType !in AllowedFileTypes then InvalidType
    else if f.size > MaxFileSize then TooLarge
    else Accepted
  }

  /** An accepted file's type is one with its own case in `GetFileType`. */
  lemma AcceptedFileHasExplicitType(f: FileDesc)
    requires CheckFile(f) == Accepted
    ensures exists i :: 0 <= i < |AllowedFileTypes| && f.mimeType == AllowedFileTypes[i]
                        && GetFileType(f.mimeType) == FileTypeTags[i]
  {
    var i :| 0 <= i < |AllowedFileTypes| && f.mimeType == AllowedFileTypes[i];
    GetFileTypeTable(i);
  }

  /** `${uid}/${Date.now()}.${ext}`, where `ext` is what follows the file name's last dot. */
  function StorageKey(uid: UserId, now: nat, fileName: string): (key: string)
    ensures |uid| < |key| && key[..|uid| + 1] == uid + "/"
  {
    var key := uid + ("/" + (Decimal(now) + ("." + LastSegment(fileName))));
    assert key[..|uid| + 1] == uid + "/";
    key
  }

  /** The key's first segment names the uploader and its last segment is the file's extension. */
  lemma {:induction false} StorageKeyParts(uid: UserId, now: nat, fileName: string)
    requires '/' !in uid
    ensures UpTo(StorageKey(uid, now, fileName), '/') == uid
    ensures LastSegment(StorageKey(uid, now, fileName)) == LastSegment(fileName)
  {
    var digits, ext := Decimal(now), LastSegment(fileName);
    var tail := digits + ("." + ext);
    var key := StorageKey(uid, now, fileName);
    assert key == uid + ("/" + tail);
    assert uid + ("/" + tail) == (uid + "/") + tail;
    UpToPrefix(uid, '/', tail);
    assert key == (uid + ("/" + digits)) + ("." + ext);
    LastSegmentAfterDot(uid + ("/" + digits), ext);
  }

  /** `subject || null`: the empty string is stored as NULL. */
  function NullIfEmpty(s: string): (o: Option<string>)
    ensures o.None? <==> s == ""
    ensures o.Some? ==> o.value == s
  {
    if s == "" then None else Some(s)
  }

  /** The contents of the form's fields. */
  datatype Draft = Draft(
    title: string,
    description: string,
    category: string,
    subject: string,
    course: string,
    file: Option<FileDesc>)

  const EmptyDraft := Draft("", "", "", "", "", None)

  /** The required-field gate: a file, a non-empty title and a non-empty category. */
  predicate ReadyToSubmit(d: Draft) {
    d.file.Some? && d.title != "" && d.category != ""
  }

  /** The row inserted for a stored file; the table supplies the id and the creation time,
      and a new row's download counter starts at zero. */
  function IntakeRow(id: ResourceId, createdAt: int, d: Draft, key: string, uid: UserId): Resource
    requires d.file.Some?
  {
    Resource(
      id := id,
      title := d.title,
      description := d.description,
      category := d.category,
      fileType := GetFileType(d.file.value.mimeType),
      fileUrl := key,
      fileName := d.file.value.name,
      fileSize := d.file.value.size,
      subject := NullIfEmpty(d.subject),
      course := NullIfEmpty(d.course),
      downloadCount := 0,
      uploaderId := uid,
      createdAt := createdAt)
  }

  /** The inserted row points at the file's key in the uploader's namespace, carries the tag of
      the declared type (the matching tag for an allowed type, PDF for any other), and has
      never been downloaded. */
  lemma IntakeRowProperties(id: ResourceId, createdAt: int, d: Draft, now: nat, uid: UserId)
    requires ReadyToSubmit(d)
    ensures var r := IntakeRow(id, createdAt, d, StorageKey(uid, now, d.file.value.name), uid);
            && r.uploaderId == uid
            && r.fileUrl == StorageKey(uid, now, d.file.value.name)
            && r.fileUrl[..|uid| + 1] == uid + "/"
            && r.fileType == GetFileType(d.file.value.mimeType)
            && (forall i :: 0 <= i < |AllowedFileTypes| && d.file.value.mimeType == AllowedFileTypes[i]
                            ==> r.fileType == FileTypeTags[i])
            && (d.file.value.mimeType !in AllowedFileTypes ==> r.fileType == "PDF")
            && r.fileName == d.file.value.name && r.fileSize == d.file.value.size
            && r.title != "" && r.category != ""
            && (r.subject.None? <==> d.subject == "")
            && (r.course.None? <==> d.course == "")
            && r.downloadCount == 0
  {
    forall i | 0 <= i < |AllowedFileTypes| && d.file.value.mimeType == AllowedFileTypes[i] {
      GetFileTypeTable(i);
    }
  }

  /** What a submission leads to. */
  datatype SubmitOutcome =
    | SignInRequired
    | MissingFields
    | StorageFailed
    | InsertFailed
    | Uploaded(row: Resource)

  class UploadForm {
    var title: string
    var description: string
    var category: string
    var subject: string
    var course: string
    var file: Option<FileDesc>
    var isUploading: bool

    function Fields(): Draft
      reads this
    {
      Draft(title, description, category, subject, course, file)
    }

    /** The form only ever holds a file that passed both checks. */
    ghost predicate Valid()
      reads this
    {
      file.Some? ==> CheckFile(file.value) == Accepted
    }

    constructor ()
      ensures Valid()
      ensures Fields() == EmptyDraft && !isUploading
    {
      title, description, category, subject, course := "", "", "", "", "";
      file := None;
      isUploading := false;
    }

    /** The file input's change handler: only a file that passes both checks is kept. */
    method HandleFileChange(selected: Option<FileDesc>) returns (verdict: Option<Verdict>)
      requires Valid()
      modifies this`file
      ensures Valid()
      ensures verdict == if selected.None? then None else Some(CheckFile(selected.value))
      ensures file == if verdict == Some(Accepted) then selected else old(file)
    {
      verdict := None;
      if selected.Some? {
        var f := selected.value;
        if f.mimeType !in AllowedFileTypes {
          verdict := Some(InvalidType);
          return;
        }
        if f.size > MaxFileSize {
          verdict := Some(TooLarge);
          return;
        }
        verdict := Some(Accepted);
        file := selected;
      }
    }

    /** Clears every field after a successful upload. */
    method ResetForm()
      modifies this
      ensures Valid()
      ensures Fields() == EmptyDraft && isUploading == old(isUploading)
    {
      title, description, category, subject, course := "", "", "", "", "";
      file := None;
    }

    /** The form's submit handler. `now` stands for `Date.now()`; `newId` and `createdAt` are
        the values the table assigns to an inserted row; the two flags are the storage
        service's and the table's verdicts. */
    method HandleSubmit(user: Option<UserId>, now: nat, db: Backend, uploadAccept: bool,
                        newId: ResourceId, createdAt: int, insertAccept: bool)
      returns (outcome: SubmitOutcome)
      requires Valid() && db.Valid()
      modifies this, db
      ensures Valid() && db.Valid()
      ensures user.Some? && ReadyToSubmit(old(Fields())) ==>
                CheckFile(old(file).value) == Accepted && old(file).value.size <= MaxFileSize
                && old(file).value.mimeType in AllowedFileTypes
      ensures user.None? ==> outcome == SignInRequired
      ensures user.Some? && !ReadyToSubmit(old(Fields())) ==> outcome == MissingFields
      ensures (user.None? || !ReadyToSubmit(old(Fields()))) ==>
                unchanged(this) && db.blobs == old(db.blobs) && db.rows == old(db.rows)
                && db.calls == old(db.calls)
      ensures user.Some? && ReadyToSubmit(old(Fields())) ==>
                && !isUploading
                && IntakeEffect(user.value, old(Fields()), now, old(db.blobs), old(db.rows), old(db.calls),
                                uploadAccept, newId, createdAt, insertAccept,
                                outcome, db.blobs, db.rows, db.calls)
                && Fields() == (if outcome.Uploaded? then EmptyDraft else old(Fields()))
    {
      if user.None? {
        return SignInRequired;
      }
      if file.None? || title == "" || category == "" {
        return MissingFields;
      }
      isUploading := true;
      outcome := Intake(user.value, Fields(), now, db, uploadAccept, newId, createdAt, insertAccept);
      if outcome.Uploaded? {
        ResetForm();
      }
      isUploading := false;
    }
  }

  /** The intake's outcome and the backend's new state: the file is stored under its key
      first; only if that succeeds is the row inserted. A failed insert leaves the stored
      file behind. */
  ghost predicate IntakeEffect(
    uid: UserId, d: Draft, now: nat,
    blobs: map<string, FileDesc>, rows: map<ResourceId, Resource>, calls: seq<Call>,
    uploadAccept: bool, newId: ResourceId, createdAt: int, insertAccept: bool,
    outcome: SubmitOutcome,
    blobs': map<string, FileDesc>, rows': map<ResourceId, Resource>, calls': seq<Call>)
    requires ReadyToSubmit(d)
  {
    var key := StorageKey(uid, now, d.file.value.name);
    var stored := uploadAccept && key !in blobs;
    var inserted := stored && insertAccept && newId !in rows;
    var row := IntakeRow(newId, createdAt, d, key, uid);
    && outcome == (if !stored then StorageFailed else if !inserted then InsertFailed else Uploaded(row))
    && blobs' == (if stored then blobs[key := d.file.value] else blobs)
    && rows' == (if inserted then rows[newId := row] else rows)
    && calls' == calls + (if stored then [UploadBlob(key), InsertRow(newId)] else [UploadBlob(key)])
  }

  /** Store the file, then insert its row; the first failure ends the intake. */
  method Intake(uid: UserId, d: Draft, now: nat, db: Backend, uploadAccept: bool,
                newId: ResourceId, createdAt: int, insertAccept: bool)
    returns (outcome: SubmitOutcome)
    requires ReadyToSubmit(d) && db.Valid()
    modifies db
    ensures db.Valid()
    ensures IntakeEffect(uid, d, now, old(db.blobs), old(db.rows), old(db.calls),
                         uploadAccept, newId, createdAt, insertAccept,
                         outcome, db.blobs, db.rows, db.calls)
  {
    var key := StorageKey(uid, now, d.file.value.name);
    var stored := db.Upload(key, d.file.value, uploadAccept);
    if !stored {
      return StorageFailed;
    }
    var row := IntakeRow(newId, createdAt, d, key, uid);
    var inserted := db.Insert(row, insertAccept);
    assert db.calls == old(db.calls) + [UploadBlob(key), InsertRow(newId)];
    outcome := if inserted then Uploaded(row) else InsertFailed;
  }
}
