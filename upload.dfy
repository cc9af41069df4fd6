/**
 * `POST /api/upload`: the ordered validation of a multipart upload, then the
 * write sequence (main blob, best-effort thumbnail, record insert,
 * confirm-read), and the status the handler answers with.
 */
module Upload {
  import opened JsString
  import opened Types
  import opened Storage
  import opened Db
  import opened Http

  /** A `File` form field: its name, its declared type and its bytes (`size` is their count). */
  datatype UploadedFile = UploadedFile(name: string, mimeType: string, data: seq<Byte>)

  /** A form field's value: a `File`, or text. */
  datatype FormField = FileEntry(upload: UploadedFile) | TextEntry(text: string)

  /** `request.formData()`: a parse that throws, or the `file` and `thumbnail` fields. */
  datatype FormBody = Unparsable(message: string) | Form(file: Option<FormField>, thumbnail: Option<string>)

  /** The form parsed and its `file` field holds a `File`. */
  predicate HasFile(form: FormBody) {
    form.Form? && form.file.Some? && form.file.value.FileEntry?
  }

  function FileOf(form: FormBody): UploadedFile
    requires HasFile(form)
  {
    form.file.value.upload
  }

  /**
   * `!file` holds of an absent field and of empty text; non-empty text gets
   * past it, and its `type` is `undefined`.
   */
  predicate FileMissing(form: FormBody)
    requires form.Form?
  {
    form.file.None? || (form.file.value.TextEntry? && form.file.value.text == "")
  }

  const UndefinedType: string := "undefined"

  /**
   * Everything the upload takes from outside the request: the SHA-256 digest
   * function, `atob` (`None` where it throws), the clock as each of the two
   * path builders reads it, the timestamp `insertFile` reads, the id `uuidv4`
   * returns, and the outcome of each of the three writes.
   */
  datatype UploadIo = UploadIo(
    sha256: seq<Byte> -> seq<Byte>,
    decodeBase64: string -> Option<seq<Byte>>,
    pathClock: Clock,
    thumbClock: Clock,
    now: string,
    freshId: string,
    mainPut: Fault,
    thumbPut: Fault,
    insert: Fault)

  /** `UploadResult` of `processUpload`, plus an error thrown out of it. */
  datatype UploadResult = Uploaded(file: FileResponse) | Rejected(status: int, error: string) | Threw(message: string)

  /** The outcome of validation: an answer, an error thrown by the form parser, or an accepted file. */
  datatype Validation =
    | Invalid(status: int, error: string)
    | FormThrew(message: string)
    | Accepted(file: UploadedFile, thumbnail: Option<string>, isImage: bool)

  const NotMultipart: string := "Content-Type must be multipart/form-data"
  const FileRequired: string := "File is required"

  /** `[...ALLOWED_IMAGE_TYPES, ...ALLOWED_VIDEO_TYPES].join(', ')` */
  function AllowedList(): string {
    Join(ImageTypes + VideoTypes, ", ")
  }

  function InvalidTypeMessage(mimeType: string): string {
    "Invalid file type: " + mimeType + ". Allowed: " + AllowedList()
  }

  /** The ceiling for an allowed type: images 5 MiB, videos 15 MiB. */
  function MaxSizeFor(mimeType: string): nat {
    if mimeType in ImageTypes then MaxImageSize else MaxVideoSize
  }

  /** `File too large. Maximum size: ${maxSize / (1024 * 1024)}MB` */
  function TooLargeMessage(maxSize: nat): string {
    "File too large. Maximum size: " + Decimal(maxSize / MiB) + "MB"
  }

  /** `contentType.includes('multipart/form-data')`, an absent header reading as empty. */
  predicate IsMultipart(contentType: Option<string>) {
    Contains(if contentType.Some? then contentType.value else "", "multipart/form-data")
  }

  /**
   * The checks of `processUpload`, in order: the content type, the form, the
   * presence of the file, its type, its size. An upload is accepted exactly
   * when it passes all five.
   */
  function ValidateUpload(contentType: Option<string>, form: FormBody): (v: Validation)
    ensures v.Accepted? <==>
      IsMultipart(contentType) && HasFile(form)
      && IsAllowedType(FileOf(form).mimeType)
      && |FileOf(form).data| <= MaxSizeFor(FileOf(form).mimeType)
    ensures v.Accepted? ==>
      v.file == FileOf(form) && v.thumbnail == form.thumbnail && (v.isImage <==> v.file.mimeType in ImageTypes)
    ensures v.Invalid? ==> v.status == 400
  {
    var ct := if contentType.Some? then contentType.value else "";
    if !Contains(ct, "multipart/form-data") then Invalid(400, NotMultipart)
    else match form
      case Unparsable(m) => FormThrew(m)
      case Form(field, thumbnail) =>
        if FileMissing(form) then Invalid(400, FileRequired)
        else if field.value.TextEntry? then Invalid(400, InvalidTypeMessage(UndefinedType))
        else
          var file := field.value.upload;
          var mime := file.mimeType;
          var isImage := mime in ImageTypes;
          var isVideo := mime in VideoTypes;
          if !isImage && !isVideo then Invalid(400, InvalidTypeMessage(mime))
          else
            var maxSize := if isImage then MaxImageSize else MaxVideoSize;
            if |file.data| > maxSize then Invalid(400, TooLargeMessage(maxSize))
            else Accepted(file, thumbnail, isImage)
  }

  /** The rejection message for a disallowed type names every one of the seven allowed types. */
  lemma InvalidTypeListsAllowed(mimeType: string, allowed: string)
    requires IsAllowedType(allowed)
    ensures Contains(InvalidTypeMessage(mimeType), allowed)
  {
    var all := ImageTypes + VideoTypes;
    assert allowed in all;
    var k :| 0 <= k < |all| && all[k] == allowed;
    JoinContains(all, ", ", k);
    var prefix := "Invalid file type: " + mimeType + ". Allowed: ";
    assert InvalidTypeMessage(mimeType) == prefix + AllowedList();
    ContainsAfter(prefix, AllowedList(), allowed);
  }

  /** The size messages read `5MB` for images and `15MB` for videos. */
  lemma TooLargeMessages()
    ensures TooLargeMessage(MaxImageSize) == "File too large. Maximum size: 5MB"
    ensures TooLargeMessage(MaxVideoSize) == "File too large. Maximum size: 15MB"
  {
    assert MaxImageSize / MiB == 5 && MaxVideoSize / MiB == 15;
    assert Decimal(5) == "5";
    assert Decimal(15) == "15" by {
      assert ToRadix(1, 10) == [RadixDigit(1)];
      assert ToRadix(15, 10) == ToRadix(1, 10) + [RadixDigit(5)];
    }
  }

  /**
   * The messages in check order: the content type is checked before the form
   * is read, the file's presence before its type, its type before its size;
   * a size equal to the ceiling passes.
   */
  lemma ValidationOrder(contentType: Option<string>, form: FormBody)
    ensures !IsMultipart(contentType) ==> ValidateUpload(contentType, form) == Invalid(400, NotMultipart)
    ensures IsMultipart(contentType) && form.Form? && FileMissing(form) ==>
      ValidateUpload(contentType, form) == Invalid(400, FileRequired)
    ensures IsMultipart(contentType) && form.Form? && !FileMissing(form) && !HasFile(form) ==>
      ValidateUpload(contentType, form) == Invalid(400, InvalidTypeMessage(UndefinedType))
    ensures IsMultipart(contentType) && HasFile(form) && !IsAllowedType(FileOf(form).mimeType) ==>
      ValidateUpload(contentType, form) == Invalid(400, InvalidTypeMessage(FileOf(form).mimeType))
    ensures IsMultipart(contentType) && HasFile(form) && IsAllowedType(FileOf(form).mimeType) ==>
      var f := FileOf(form);
      (|f.data| > MaxSizeFor(f.mimeType) ==> ValidateUpload(contentType, form) == Invalid(400, TooLargeMessage(MaxSizeFor(f.mimeType))))
      && (|f.data| == MaxSizeFor(f.mimeType) ==> ValidateUpload(contentType, form).Accepted?)
  {
  }

  /**
   * `MIME_TO_EXTENSION[mimeType] || 'bin'`, with the type as written (not
   * lowercased). The table is a plain object, so each of the twelve
   * `Object.prototype` names finds a truthy member, which the path template
   * renders as text.
   */
  function ExtensionFor(mimeType: string): (ext: string)
    ensures ext != ""
    ensures mimeType in MimeToExtension ==> ext == MimeToExtension[mimeType]
    ensures mimeType in PrototypeMembers ==> ext == PrototypeMembers[mimeType]
    ensures mimeType !in MimeToExtension && mimeType !in PrototypeMembers ==> ext == "bin"
  {
    if mimeType in MimeToExtension && MimeToExtension[mimeType] != "" then MimeToExtension[mimeType]
    else if mimeType in PrototypeMembers then PrototypeMembers[mimeType]
    else "bin"
  }

  /** An allowed type is stored under its own extension, never `bin`, and is served back with a type of its own kind. */
  lemma AllowedTypesHaveExtensions(mimeType: string)
    requires IsAllowedType(mimeType)
    ensures ExtensionFor(mimeType) == MimeToExtension[mimeType] != "bin"
    ensures ExtensionFor(mimeType) in ExtensionToMime
  {
    ExtensionRoundTrip(mimeType);
  }

  /**
   * `replace(/^data:image\/\w+;base64,/, '')`: drops a leading data URL
   * header (one or more word characters of subtype), and leaves any other
   * text as it is.
   */
  function StripDataUrlPrefix(s: string): (r: string)
    ensures |r| <= |s| && r == s[|s| - |r|..]
    ensures !("data:image/" <= s) ==> r == s
    ensures r != s ==> |s| - |r| >= 20 && s[|s| - |r| - 8..|s| - |r|] == ";base64,"
  {
    if "data:image/" <= s then
      var t := s[11..];
      var n := WordRun(t);
      if n >= 1 && ";base64," <= t[n..] then t[n + 8..] else s
    else s
  }

  /** A data URL header with a word-character subtype is removed, whatever follows it. */
  lemma StripsDataUrl(subtype: string, payload: string)
    requires |subtype| >= 1 && forall i :: 0 <= i < |subtype| ==> IsWordChar(subtype[i])
    ensures StripDataUrlPrefix("data:image/" + subtype + ";base64," + payload) == payload
  {
    var tail := ";base64," + payload;
    var t := subtype + tail;
    assert "data:image/" + subtype + ";base64," + payload == "data:image/" + t;
    assert !IsWordChar(tail[0]);
    WordRunOf(subtype, tail);
    assert t[|subtype|..] == tail && t[|subtype| + 8..] == payload;
    StripsHeader("data:image/" + t, t);
  }

  /** Once the subtype's word run is followed by `;base64,`, what comes after is kept. */
  lemma StripsHeader(s: string, t: string)
    requires "data:image/" <= s && s[11..] == t
    requires WordRun(t) >= 1 && ";base64," <= t[WordRun(t)..]
    ensures StripDataUrlPrefix(s) == t[WordRun(t) + 8..]
  {
  }

  lemma {:induction false} WordRunOf(w: string, rest: string)
    requires forall i :: 0 <= i < |w| ==> IsWordChar(w[i])
    requires rest == [] || !IsWordChar(rest[0])
    ensures WordRun(w + rest) == |w|
    decreases |w|
  {
    if w != [] {
      assert (w + rest)[1..] == w[1..] + rest;
      WordRunOf(w[1..], rest);
    }
  }

  /** Text that does not start with `data:` is decoded as it is. */
  lemma KeepsPlainBase64(s: string)
    requires !("data:" <= s)
    ensures StripDataUrlPrefix(s) == s
  {
    PrefixOfPrefix("data:", "data:image/", s);
  }

  lemma PrefixOfPrefix(u: string, v: string, s: string)
    requires u <= v
    ensures v <= s ==> u <= s
  {
  }

  // ---------------------------------------------------------------- the write sequence

  /**
   * The thumbnail step: nothing without a (non-empty) thumbnail field or when
   * `atob` throws; otherwise the path is chosen first and then written, so a
   * failed write still leaves the path recorded.
   */
  function ThumbnailStep(objects: map<string, StoredObject>, hash: string, thumbnail: Option<string>, io: UploadIo)
    : (map<string, StoredObject>, Option<string>)
  {
    if thumbnail.None? || thumbnail.value == "" then (objects, None)
    else match io.decodeBase64(StripDataUrlPrefix(thumbnail.value))
      case None => (objects, None)
      case Some(bytes) =>
        var path := ThumbnailPath(hash, "jpg", io.thumbClock);
        (if io.thumbPut.Succeeds? then objects[path := StoredObject(bytes, "image/jpeg", ImmutableCacheControl)] else objects,
         Some(path))
  }

  /** The record `processUpload` inserts for an accepted file. */
  function NewRecord(file: UploadedFile, isImage: bool, storedPath: string, thumbnailPath: Option<string>, id: string): NewFile {
    NewFile(id, file.name, storedPath, file.mimeType, |file.data|,
      if isImage then Image else Video, None, None, None, thumbnailPath)
  }

  /** The main blob's path: the content hash of the bytes and the type's extension, under the current month. */
  function MainPath(file: UploadedFile, io: UploadIo): string {
    StoragePath(FileHash(io.sha256(file.data)), ExtensionFor(file.mimeType), io.pathClock)
  }

  /** What an upload answers and leaves in the bucket and the table. */
  datatype UploadOutcome = UploadOutcome(result: UploadResult, objects: map<string, StoredObject>, rows: seq<FileRecord>)

  /**
   * `processUpload` as a function of the stores' old contents: validation,
   * then the main write, the thumbnail step, the insert and the confirm-read.
   * A throw at any write ends the upload with what was written so far.
   */
  function UploadEffect(objects: map<string, StoredObject>, rows: seq<FileRecord>, contentType: Option<string>,
    form: FormBody, io: UploadIo, cdnBaseUrl: string): UploadOutcome
  {
    match ValidateUpload(contentType, form)
    case Invalid(status, error) => UploadOutcome(Rejected(status, error), objects, rows)
    case FormThrew(m) => UploadOutcome(Threw(m), objects, rows)
    case Accepted(file, thumbnail, isImage) => StoreAccepted(objects, rows, file, thumbnail, isImage, io, cdnBaseUrl)
  }

  /** The writes of an accepted upload: the main blob, then the thumbnail step, then the record. */
  function StoreAccepted(objects: map<string, StoredObject>, rows: seq<FileRecord>, file: UploadedFile,
    thumbnail: Option<string>, isImage: bool, io: UploadIo, cdnBaseUrl: string): UploadOutcome
  {
    var hash := FileHash(io.sha256(file.data));
    var storedPath := MainPath(file, io);
    if io.mainPut.Throws? then UploadOutcome(Threw(io.mainPut.message), objects, rows)
    else
      var written := objects[storedPath := StoredObject(file.data, file.mimeType, ImmutableCacheControl)];
      var (objects2, thumbnailPath) := ThumbnailStep(written, hash, thumbnail, io);
      RecordUpload(objects2, rows, NewRecord(file, isImage, storedPath, thumbnailPath, io.freshId), io, cdnBaseUrl)
  }

  /** The insert, then the read that confirms it. */
  function RecordUpload(objects: map<string, StoredObject>, rows: seq<FileRecord>, record: NewFile,
    io: UploadIo, cdnBaseUrl: string): UploadOutcome
  {
    if io.insert.Throws? then UploadOutcome(Threw(io.insert.message), objects, rows)
    else
      var rows2 := rows + [Stamp(record, io.now)];
      match FindById(rows2, io.freshId)
      case None => UploadOutcome(Rejected(500, "Failed to retrieve uploaded file"), objects, rows2)
      case Some(inserted) => UploadOutcome(Uploaded(ToResponse(inserted, cdnBaseUrl, false)), objects, rows2)
  }

  /** A successful insert of a fresh id is read back: one more row, and the answer is its summary. */
  lemma RecordUploadSucceeds(objects: map<string, StoredObject>, rows: seq<FileRecord>, record: NewFile,
    io: UploadIo, cdnBaseUrl: string)
    requires !HasId(rows, io.freshId) && record.id == io.freshId && io.insert.Succeeds?
    ensures var o := RecordUpload(objects, rows, record, io, cdnBaseUrl);
      o.objects == objects && o.rows == rows + [Stamp(record, io.now)]
      && o.result == Uploaded(ToResponse(Stamp(record, io.now), cdnBaseUrl, false))
  {
    InsertEffect(rows, record, io.now, io.freshId);
  }

  /** `processUpload` on the two stores. The id is fresh (a new UUID). */
  method ProcessUpload(bucket: Bucket, table: FilesTable, contentType: Option<string>, form: FormBody,
    io: UploadIo, cdnBaseUrl: string) returns (result: UploadResult)
    requires table.Valid() && !HasId(table.rows, io.freshId)
    modifies bucket, table
    ensures table.Valid()
    ensures UploadOutcome(result, bucket.objects, table.rows)
      == UploadEffect(old(bucket.objects), old(table.rows), contentType, form, io, cdnBaseUrl)
  {
    var v := ValidateUpload(contentType, form);
    if v.Invalid? {
      return Rejected(v.status, v.error);
    }
    if v.FormThrew? {
      return Threw(v.message);
    }
    var file := v.file;
    ghost var objects0, rows0 := bucket.objects, table.rows;
    assert UploadEffect(objects0, rows0, contentType, form, io, cdnBaseUrl)
      == StoreAccepted(objects0, rows0, file, v.thumbnail, v.isImage, io, cdnBaseUrl);
    var hash := FileHash(io.sha256(file.data));
    var storedPath := StoragePath(hash, ExtensionFor(file.mimeType), io.pathClock);
    var outcome := bucket.Put(storedPath, file.data, file.mimeType, io.mainPut);
    if outcome.Throws? {
      return Threw(outcome.message);
    }
    ghost var written := bucket.objects;
    var thumbnailPath: Option<string> := None;
    if v.thumbnail.Some? && v.thumbnail.value != "" {
      var decoded := io.decodeBase64(StripDataUrlPrefix(v.thumbnail.value));
      if decoded.Some? {
        thumbnailPath := Some(ThumbnailPath(hash, "jpg", io.thumbClock));
        var ignored := bucket.Put(thumbnailPath.value, decoded.value, "image/jpeg", io.thumbPut);
      }
    }
    assert (bucket.objects, thumbnailPath) == ThumbnailStep(written, hash, v.thumbnail, io);
    var record := NewRecord(file, v.isImage, storedPath, thumbnailPath, io.freshId);
    assert StoreAccepted(objects0, rows0, file, v.thumbnail, v.isImage, io, cdnBaseUrl)
      == RecordUpload(bucket.objects, rows0, record, io, cdnBaseUrl);
    outcome := table.InsertFile(record, io.now, io.insert);
    if outcome.Throws? {
      return Threw(outcome.message);
    }
    var inserted := table.GetFileById(io.freshId);
    if inserted.None? {
      return Rejected(500, "Failed to retrieve uploaded file");
    }
    result := Uploaded(ToResponse(inserted.value, cdnBaseUrl, false));
  }

  /** `handleUpload`: 201 with the file, the result's own status with its error, or 500 with a thrown message. */
  function HandleUpload(result: UploadResult): (r: Response)
    ensures result.Uploaded? ==> r.status == 201 && r.body == FileBody(result.file)
    ensures !result.Uploaded? ==> r.body.ErrorBody? && r.status == if result.Rejected? then result.status else 500
  {
    match result
    case Uploaded(f) => Response(201, FileBody(f))
    case Rejected(status, error) => Error(status, error)
    case Threw(m) => Error(500, m)
  }

  /** An upload answers 201 exactly when it stored a record, and otherwise 400 or 500 with an error body. */
  lemma UploadStatuses(objects: map<string, StoredObject>, rows: seq<FileRecord>,
    contentType: Option<string>, form: FormBody, io: UploadIo, cdnBaseUrl: string)
    ensures var o := UploadEffect(objects, rows, contentType, form, io, cdnBaseUrl);
      var r := HandleUpload(o.result);
      (r.status == 201 <==> o.result.Uploaded?)
      && (r.status == 201 ==> r.body.FileBody? && |o.rows| == |rows| + 1)
      && (r.status != 201 ==> r.body.ErrorBody? && (r.status == 400 || r.status == 500))
  {
  }

  // ---------------------------------------------------------------- what an upload does

  /** Every check precedes the first write: a rejected or unparsable upload changes neither store. */
  lemma FailedValidationWritesNothing(objects: map<string, StoredObject>, rows: seq<FileRecord>,
    contentType: Option<string>, form: FormBody, io: UploadIo, cdnBaseUrl: string)
    requires !ValidateUpload(contentType, form).Accepted?
    ensures var o := UploadEffect(objects, rows, contentType, form, io, cdnBaseUrl);
      o.objects == objects && o.rows == rows && !o.result.Uploaded?
  {
  }

  /**
   * An accepted upload whose writes all succeed stores the bytes under the
   * content-addressed path, appends one record with the type's kind, no
   * dimensions, the stored path and fresh timestamps, and answers with that
   * record's summary.
   */
  lemma SuccessfulUpload(objects: map<string, StoredObject>, rows: seq<FileRecord>,
    contentType: Option<string>, form: FormBody, io: UploadIo, cdnBaseUrl: string)
    requires ValidateUpload(contentType, form).Accepted?
    requires !HasId(rows, io.freshId)
    requires io.mainPut.Succeeds? && io.insert.Succeeds?
    ensures var o := UploadEffect(objects, rows, contentType, form, io, cdnBaseUrl);
      var file := FileOf(form);
      var path := StoragePath(FileHash(io.sha256(file.data)), MimeToExtension[file.mimeType], io.pathClock);
      |o.rows| == |rows| + 1 && o.rows[..|rows|] == rows
      && var rec := o.rows[|rows|];
      rec.id == io.freshId && rec.originalName == file.name && rec.storedPath == path
      && rec.mimeType == file.mimeType && rec.fileSize == |file.data|
      && (rec.fileType == Image <==> file.mimeType in ImageTypes)
      && rec.width.None? && rec.height.None? && rec.duration.None?
      && rec.createdAt == io.now && rec.updatedAt == io.now
      && path in o.objects && o.objects[path].data == file.data && o.objects[path].contentType == file.mimeType
      && o.result == Uploaded(ToResponse(rec, cdnBaseUrl, false))
      && var thumb := ThumbnailPath(FileHash(io.sha256(file.data)), "jpg", io.thumbClock);
      (forall k :: k in o.objects ==> k in objects || k == path || k == thumb)
      && (forall k :: k in objects && k != path && k != thumb ==> k in o.objects && o.objects[k] == objects[k])
  {
    SuccessfulUploadRecord(objects, rows, contentType, form, io, cdnBaseUrl);
    SuccessfulUploadBucket(objects, rows, contentType, form, io, cdnBaseUrl);
  }

  /** The record half of `SuccessfulUpload`: the one appended row and the answer. */
  lemma SuccessfulUploadRecord(objects: map<string, StoredObject>, rows: seq<FileRecord>,
    contentType: Option<string>, form: FormBody, io: UploadIo, cdnBaseUrl: string)
    requires ValidateUpload(contentType, form).Accepted?
    requires !HasId(rows, io.freshId)
    requires io.mainPut.Succeeds? && io.insert.Succeeds?
    ensures var o := UploadEffect(objects, rows, contentType, form, io, cdnBaseUrl);
      var file := FileOf(form);
      var path := StoragePath(FileHash(io.sha256(file.data)), MimeToExtension[file.mimeType], io.pathClock);
      |o.rows| == |rows| + 1 && o.rows[..|rows|] == rows
      && var rec := o.rows[|rows|];
      rec.id == io.freshId && rec.originalName == file.name && rec.storedPath == path
      && rec.mimeType == file.mimeType && rec.fileSize == |file.data|
      && (rec.fileType == Image <==> file.mimeType in ImageTypes)
      && rec.width.None? && rec.height.None? && rec.duration.None?
      && rec.createdAt == io.now && rec.updatedAt == io.now
      && o.result == Uploaded(ToResponse(rec, cdnBaseUrl, false))
  {
    var file := FileOf(form);
    AllowedTypesHaveExtensions(file.mimeType);
    var v := ValidateUpload(contentType, form);
    var hash := FileHash(io.sha256(file.data));
    var path := MainPath(file, io);
    var written := objects[path := StoredObject(file.data, file.mimeType, ImmutableCacheControl)];
    var (objects2, thumbnailPath) := ThumbnailStep(written, hash, v.thumbnail, io);
    var record := NewRecord(file, v.isImage, path, thumbnailPath, io.freshId);
    var o := UploadEffect(objects, rows, contentType, form, io, cdnBaseUrl);
    assert o == RecordUpload(objects2, rows, record, io, cdnBaseUrl);
    RecordUploadSucceeds(objects2, rows, record, io, cdnBaseUrl);
    assert (rows + [Stamp(record, io.now)])[..|rows|] == rows;
  }

  /** The bucket half of `SuccessfulUpload`: the main blob and the frame around it. */
  lemma SuccessfulUploadBucket(objects: map<string, StoredObject>, rows: seq<FileRecord>,
    contentType: Option<string>, form: FormBody, io: UploadIo, cdnBaseUrl: string)
    requires ValidateUpload(contentType, form).Accepted?
    requires io.mainPut.Succeeds? && io.insert.Succeeds?
    ensures var o := UploadEffect(objects, rows, contentType, form, io, cdnBaseUrl);
      var file := FileOf(form);
      var path := StoragePath(FileHash(io.sha256(file.data)), MimeToExtension[file.mimeType], io.pathClock);
      var thumb := ThumbnailPath(FileHash(io.sha256(file.data)), "jpg", io.thumbClock);
      path in o.objects && o.objects[path].data == file.data && o.objects[path].contentType == file.mimeType
      && (forall k :: k in o.objects ==> k in objects || k == path || k == thumb)
      && (forall k :: k in objects && k != path && k != thumb ==> k in o.objects && o.objects[k] == objects[k])
  {
    var file := FileOf(form);
    AllowedTypesHaveExtensions(file.mimeType);
    var v := ValidateUpload(contentType, form);
    var hash := FileHash(io.sha256(file.data));
    var path := MainPath(file, io);
    var written := objects[path := StoredObject(file.data, file.mimeType, ImmutableCacheControl)];
    var (objects2, thumbnailPath) := ThumbnailStep(written, hash, v.thumbnail, io);
    var record := NewRecord(file, v.isImage, path, thumbnailPath, io.freshId);
    assert UploadEffect(objects, rows, contentType, form, io, cdnBaseUrl).objects
      == RecordUpload(objects2, rows, record, io, cdnBaseUrl).objects == objects2;
    assert path in objects2 && objects2[path] == written[path] by {
      ThumbnailNeverOverwritesMain(hash, ExtensionFor(file.mimeType), io.pathClock, io.thumbClock);
    }
  }

  /**
   * The thumbnail is best effort: with the main write and the insert
   * succeeding the upload succeeds whatever happens to the thumbnail, and the
   * record names a thumbnail path exactly when the field is non-empty and
   * decodes; that path is kept even when its write throws, in which case no
   * thumbnail object is written.
   */
  lemma ThumbnailIsBestEffort(objects: map<string, StoredObject>, rows: seq<FileRecord>,
    contentType: Option<string>, form: FormBody, io: UploadIo, cdnBaseUrl: string)
    requires ValidateUpload(contentType, form).Accepted?
    requires !HasId(rows, io.freshId)
    requires io.mainPut.Succeeds? && io.insert.Succeeds?
    ensures var o := UploadEffect(objects, rows, contentType, form, io, cdnBaseUrl);
      var file := FileOf(form);
      var hash := FileHash(io.sha256(file.data));
      var decodes := form.thumbnail.Some? && form.thumbnail.value != ""
        && io.decodeBase64(StripDataUrlPrefix(form.thumbnail.value)).Some?;
      var thumb := ThumbnailPath(hash, "jpg", io.thumbClock);
      o.result.Uploaded? && |o.rows| == |rows| + 1
      && (o.rows[|rows|].thumbnailPath.Some? <==> decodes)
      && (decodes ==> o.rows[|rows|].thumbnailPath == Some(thumb))
      && (decodes && io.thumbPut.Succeeds? ==>
            thumb in o.objects
            && o.objects[thumb] == StoredObject(io.decodeBase64(StripDataUrlPrefix(form.thumbnail.value)).value,
              "image/jpeg", ImmutableCacheControl)
            && o.objects == objects[MainPath(file, io) := StoredObject(file.data, file.mimeType, ImmutableCacheControl)]
                 [thumb := StoredObject(io.decodeBase64(StripDataUrlPrefix(form.thumbnail.value)).value,
                   "image/jpeg", ImmutableCacheControl)])
      && (!decodes || io.thumbPut.Throws? ==>
          o.objects == objects[MainPath(file, io) := StoredObject(file.data, file.mimeType, ImmutableCacheControl)])
  {
    var file := FileOf(form);
    var v := ValidateUpload(contentType, form);
    var path := MainPath(file, io);
    var hash := FileHash(io.sha256(file.data));
    var written := objects[path := StoredObject(file.data, file.mimeType, ImmutableCacheControl)];
    var (objects2, thumbnailPath) := ThumbnailStep(written, hash, v.thumbnail, io);
    var record := NewRecord(file, v.isImage, path, thumbnailPath, io.freshId);
    assert UploadEffect(objects, rows, contentType, form, io, cdnBaseUrl)
      == RecordUpload(objects2, rows, record, io, cdnBaseUrl);
    RecordUploadSucceeds(objects2, rows, record, io, cdnBaseUrl);
  }

  /** A main write that throws ends the upload with a 500 and changes neither store. */
  lemma MainWriteFailureWritesNothing(objects: map<string, StoredObject>, rows: seq<FileRecord>,
    contentType: Option<string>, form: FormBody, io: UploadIo, cdnBaseUrl: string)
    requires ValidateUpload(contentType, form).Accepted? && io.mainPut.Throws?
    ensures var o := UploadEffect(objects, rows, contentType, form, io, cdnBaseUrl);
      o.objects == objects && o.rows == rows && HandleUpload(o.result) == Error(500, io.mainPut.message)
  {
  }

  /**
   * An insert that throws leaves the blob already written in the bucket with
   * no record naming it: nothing rolls the main write back.
   */
  lemma InsertFailureOrphansBlob(objects: map<string, StoredObject>, rows: seq<FileRecord>,
    contentType: Option<string>, form: FormBody, io: UploadIo, cdnBaseUrl: string)
    requires ValidateUpload(contentType, form).Accepted?
    requires io.mainPut.Succeeds? && io.insert.Throws?
    ensures var o := UploadEffect(objects, rows, contentType, form, io, cdnBaseUrl);
      var path := MainPath(FileOf(form), io);
      o.rows == rows && path in o.objects && o.objects[path].data == FileOf(form).data
      && HandleUpload(o.result) == Error(500, io.insert.message)
  {
    var file := FileOf(form);
    var hash := FileHash(io.sha256(file.data));
    ThumbnailNeverOverwritesMain(hash, ExtensionFor(file.mimeType), io.pathClock, io.thumbClock);
  }
}
