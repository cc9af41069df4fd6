/**
 * `/api/file/:id`: reading one record in its detail shape, renaming it, and
 * deleting it together with its blobs.
 */
module FileRoute {
  import opened JsString
  import opened Types
  import opened Storage
  import opened Db
  import opened Http

  const NotFound: string := "File not found"
  const InvalidJson: string := "Invalid JSON body"
  const NameRequired: string := "original_name must be a non-empty string"
  const UpdateLost: string := "Failed to update file"
  const Deleted: string := "File deleted successfully"

  // ---------------------------------------------------------------- GET

  /** `handleGetFile`: 404 for an unknown id, otherwise 200 with the record's detail shape. */
  function HandleGetFile(rows: seq<FileRecord>, id: string, cdnBaseUrl: string): (r: Response)
    ensures r.status == 200 <==> HasId(rows, id)
    ensures r.status != 200 ==> r == Error(404, NotFound)
  {
    match FindById(rows, id)
    case None => Error(404, NotFound)
    case Some(f) => Response(200, FileBody(ToResponse(f, cdnBaseUrl, true)))
  }

  /** A read answers 200 exactly for a stored id, with that record's details; otherwise 404. */
  lemma GetFileAnswers(rows: seq<FileRecord>, id: string, cdnBaseUrl: string)
    ensures var r := HandleGetFile(rows, id, cdnBaseUrl);
      (r.status == 200 <==> HasId(rows, id))
      && (r.status != 200 ==> r == Error(404, NotFound))
      && (r.status == 200 ==>
            r.body.FileBody? && r.body.file.id == id && r.body.file.details.Some?
            && exists f :: f in rows && f.id == id && r.body.file == ToResponse(f, cdnBaseUrl, true))
  {
    match FindById(rows, id)
    case None =>
    case Some(f) =>
  }

  // ---------------------------------------------------------------- PATCH

  /** A JSON value as the handler tells them apart: a string, or anything else (null included). */
  datatype JsonValue = JString(s: string) | JOther

  /**
   * `request.json()`: a parse that throws; the literal `null`, whose property
   * read throws a `TypeError` with the given message; or any other value,
   * reduced to its own properties (none for a number, a string or an array).
   */
  datatype JsonBody = Malformed | JsonNull(accessError: string) | Parsed(fields: map<string, JsonValue>)

  /** `body.original_name`, where `None` is `undefined`. */
  function NameField(fields: map<string, JsonValue>): Option<JsonValue> {
    if "original_name" in fields then Some(fields["original_name"]) else None
  }

  /** A name the handler refuses: not a string, or nothing but white space. */
  predicate BadName(v: JsonValue) {
    v.JOther? || IsBlank(v.s)
  }

  /** `BadName` is the handler's test `typeof v !== 'string' || v.trim() === ''`. */
  lemma BadNameIsTrimTest(v: JsonValue)
    ensures BadName(v) <==> v.JOther? || Trim(v.s) == ""
  {
    if v.JString? {
      TrimEmptyIffBlank(v.s);
    }
  }

  /** What a request answers and leaves in the table. */
  datatype UpdateOutcome = UpdateOutcome(response: Response, rows: seq<FileRecord>)

  /**
   * `handleUpdateFile` as a function of the table's old rows: existence, then
   * the body, then the name; then `updateFile`, whose `UPDATE` runs only when
   * a name is given, and the read-back.
   */
  function UpdateFileEffect(rows: seq<FileRecord>, id: string, body: JsonBody, now: string, fault: Fault,
    cdnBaseUrl: string): UpdateOutcome
  {
    if FindById(rows, id).None? then UpdateOutcome(Error(404, NotFound), rows)
    else match body
      case Malformed => UpdateOutcome(Error(400, InvalidJson), rows)
      case JsonNull(e) => UpdateOutcome(Error(500, e), rows)
      case Parsed(fields) => ApplyPatch(rows, id, NameField(fields), now, fault, cdnBaseUrl)
  }

  /** The name check, then `updateFile` and the answer built from what it reads back. */
  function ApplyPatch(rows: seq<FileRecord>, id: string, field: Option<JsonValue>, now: string, fault: Fault,
    cdnBaseUrl: string): UpdateOutcome
  {
    if field.Some? && BadName(field.value) then UpdateOutcome(Error(400, NameRequired), rows)
    else if field.Some? && fault.Throws? then UpdateOutcome(Error(500, fault.message), rows)
    else
      var rows2 := if field.Some? then Renamed(rows, id, field.value.s, now) else rows;
      UpdateOutcome(ReadBack(rows2, id, cdnBaseUrl), rows2)
  }

  /** The answer built from the record `updateFile` reads back. */
  function ReadBack(rows: seq<FileRecord>, id: string, cdnBaseUrl: string): Response {
    match FindById(rows, id)
    case None => Error(500, UpdateLost)
    case Some(f) => Response(200, FileBody(ToResponse(f, cdnBaseUrl, true)))
  }

  /** `handleUpdateFile` on the table; `fault` is how the `UPDATE` statement ends. */
  method HandleUpdateFile(table: FilesTable, id: string, body: JsonBody, now: string, fault: Fault,
    cdnBaseUrl: string) returns (response: Response)
    requires table.Valid()
    modifies table
    ensures table.Valid()
    ensures UpdateOutcome(response, table.rows) == UpdateFileEffect(old(table.rows), id, body, now, fault, cdnBaseUrl)
  {
    var existing := table.GetFileById(id);
    if existing.None? {
      return Error(404, NotFound);
    }
    if body.Malformed? {
      return Error(400, InvalidJson);
    }
    if body.JsonNull? {
      return Error(500, body.accessError);
    }
    var field := NameField(body.fields);
    if field.Some? && BadName(field.value) {
      return Error(400, NameRequired);
    }
    var name: Option<string> := if field.Some? then Some(field.value.s) else None;
    var outcome, updated := table.UpdateFile(id, name, now, fault);
    if outcome.Throws? {
      return Error(500, outcome.message);
    }
    if updated.None? {
      return Error(500, UpdateLost);
    }
    response := Response(200, FileBody(ToResponse(updated.value, cdnBaseUrl, true)));
  }

  /** An unknown id is answered 404 before the body is even read, and nothing changes. */
  lemma UpdateUnknownId(rows: seq<FileRecord>, id: string, body: JsonBody, now: string, fault: Fault, cdnBaseUrl: string)
    requires !HasId(rows, id)
    ensures UpdateFileEffect(rows, id, body, now, fault, cdnBaseUrl) == UpdateOutcome(Error(404, NotFound), rows)
  {
  }

  /**
   * For a stored id, a body that does not parse as JSON is answered 400
   * `Invalid JSON body`, and a parse that yields `null` ends in the handler's
   * `catch` with the message of the property access; neither changes the table.
   */
  lemma MalformedBodyRefused(rows: seq<FileRecord>, id: string, body: JsonBody, now: string, fault: Fault,
    cdnBaseUrl: string)
    requires HasId(rows, id)
    ensures body.Malformed? ==>
      UpdateFileEffect(rows, id, body, now, fault, cdnBaseUrl) == UpdateOutcome(Error(400, InvalidJson), rows)
    ensures body.JsonNull? ==>
      UpdateFileEffect(rows, id, body, now, fault, cdnBaseUrl) == UpdateOutcome(Error(500, body.accessError), rows)
  {
  }

  /**
   * A valid name renames exactly the named record: its `original_name`
   * becomes the name as sent (not trimmed), its `updated_at` becomes `now`,
   * the answer is its new detail shape, and no other look-up changes.
   */
  lemma RenameSucceeds(rows: seq<FileRecord>, id: string, name: string, now: string, cdnBaseUrl: string, other: string)
    requires HasId(rows, id) && Trim(name) != ""
    ensures var o := ApplyPatch(rows, id, Some(JString(name)), now, Succeeds, cdnBaseUrl);
      var g := FindById(rows, id).value.(originalName := name, updatedAt := now);
      o.response == Response(200, FileBody(ToResponse(g, cdnBaseUrl, true)))
      && FindById(o.rows, id) == Some(g)
      && (other != id ==> FindById(o.rows, other) == FindById(rows, other))
      && |o.rows| == |rows|
  {
    BadNameIsTrimTest(JString(name));
    var rows2 := Renamed(rows, id, name, now);
    var o := ApplyPatch(rows, id, Some(JString(name)), now, Succeeds, cdnBaseUrl);
    assert o.rows == rows2;
    RenameEffect(rows, id, name, now, id);
    RenameEffect(rows, id, name, now, other);
  }

  /** A body without `original_name` runs no `UPDATE`: 200 with the record as it was, `updated_at` untouched. */
  lemma EmptyPatchIsRead(rows: seq<FileRecord>, id: string, fields: map<string, JsonValue>, now: string, fault: Fault,
    cdnBaseUrl: string)
    requires HasId(rows, id) && "original_name" !in fields
    ensures UpdateFileEffect(rows, id, Parsed(fields), now, fault, cdnBaseUrl)
      == UpdateOutcome(HandleGetFile(rows, id, cdnBaseUrl), rows)
  {
  }

  /** A name that is not a string, or is empty or only whitespace, is refused with 400. */
  lemma BlankNameRefused(rows: seq<FileRecord>, id: string, fields: map<string, JsonValue>, now: string,
    fault: Fault, cdnBaseUrl: string)
    requires HasId(rows, id)
    requires "original_name" in fields && (fields["original_name"].JOther? || Trim(fields["original_name"].s) == "")
    ensures UpdateFileEffect(rows, id, Parsed(fields), now, fault, cdnBaseUrl)
      == UpdateOutcome(Error(400, NameRequired), rows)
  {
    BadNameIsTrimTest(fields["original_name"]);
  }

  /**
   * The read-back after a rename always finds the record, so `Failed to
   * update file` never comes from it: every request either answers 200 or
   * leaves the table as it was, and a well-formed request answers 200.
   */
  lemma ReadBackFinds(rows: seq<FileRecord>, id: string, body: JsonBody, now: string, fault: Fault, cdnBaseUrl: string)
    requires HasId(rows, id)
    ensures var o := UpdateFileEffect(rows, id, body, now, fault, cdnBaseUrl);
      o.response.status == 200 || o.rows == rows
    ensures body.Parsed? && (NameField(body.fields).None? || (!BadName(NameField(body.fields).value) && fault.Succeeds?)) ==>
      UpdateFileEffect(rows, id, body, now, fault, cdnBaseUrl).response.status == 200
  {
    if body.Parsed? {
      PatchReadsBack(rows, id, NameField(body.fields), now, fault, cdnBaseUrl);
    }
  }

  /** The patch step for a stored id: a rename or no rename, the record is read back. */
  lemma PatchReadsBack(rows: seq<FileRecord>, id: string, field: Option<JsonValue>, now: string, fault: Fault,
    cdnBaseUrl: string)
    requires HasId(rows, id)
    ensures var o := ApplyPatch(rows, id, field, now, fault, cdnBaseUrl);
      (o.response.status == 200 || o.rows == rows)
      && (field.None? || (!BadName(field.value) && fault.Succeeds?) ==> o.response.status == 200)
  {
    if field.None? || (!BadName(field.value) && fault.Succeeds?) {
      var rows2 := if field.Some? then Renamed(rows, id, field.value.s, now) else rows;
      if field.Some? {
        RenameEffect(rows, id, field.value.s, now, id);
      }
      assert FindById(rows2, id).Some?;
    }
  }

  // ---------------------------------------------------------------- DELETE

  /** How each of the three deletions `handleDeleteFile` issues ends. */
  datatype DeleteIo = DeleteIo(mainDelete: Fault, thumbDelete: Fault, recordDelete: Fault)

  /** What a deletion answers and leaves in the bucket and the table. */
  datatype DeleteOutcome = DeleteOutcome(response: Response, objects: map<string, StoredObject>, rows: seq<FileRecord>)

  /**
   * `handleDeleteFile` as a function of the stores' old contents: the main
   * blob, then the thumbnail when the record names one, then the row; a throw
   * ends the request with what was deleted so far.
   */
  function DeleteFileEffect(objects: map<string, StoredObject>, rows: seq<FileRecord>, id: string, io: DeleteIo)
    : DeleteOutcome
  {
    match FindById(rows, id)
    case None => DeleteOutcome(Error(404, NotFound), objects, rows)
    case Some(f) =>
      if io.mainDelete.Throws? then DeleteOutcome(Error(500, io.mainDelete.message), objects, rows)
      else
        var objects1 := objects - {f.storedPath};
        if HasThumbnail(f) && io.thumbDelete.Throws? then DeleteOutcome(Error(500, io.thumbDelete.message), objects1, rows)
        else
          var objects2 := if HasThumbnail(f) then objects1 - {f.thumbnailPath.value} else objects1;
          if io.recordDelete.Throws? then DeleteOutcome(Error(500, io.recordDelete.message), objects2, rows)
          else DeleteOutcome(Response(200, MessageBody(Deleted)), objects2, WithoutId(rows, id))
  }

  /** `handleDeleteFile` on the two stores. */
  method HandleDeleteFile(bucket: Bucket, table: FilesTable, id: string, io: DeleteIo) returns (response: Response)
    requires table.Valid()
    modifies bucket, table
    ensures table.Valid()
    ensures DeleteOutcome(response, bucket.objects, table.rows) == DeleteFileEffect(old(bucket.objects), old(table.rows), id, io)
  {
    var file := table.GetFileById(id);
    if file.None? {
      return Error(404, NotFound);
    }
    var f := file.value;
    var outcome := bucket.Delete(f.storedPath, io.mainDelete);
    if outcome.Throws? {
      return Error(500, outcome.message);
    }
    if f.thumbnailPath.Some? && f.thumbnailPath.value != "" {
      outcome := bucket.Delete(f.thumbnailPath.value, io.thumbDelete);
      if outcome.Throws? {
        return Error(500, outcome.message);
      }
    }
    outcome := table.DeleteFile(id, io.recordDelete);
    if outcome.Throws? {
      return Error(500, outcome.message);
    }
    response := Response(200, MessageBody(Deleted));
  }

  /** Deleting an unknown id is a 404 that touches neither store. */
  lemma DeleteUnknownId(objects: map<string, StoredObject>, rows: seq<FileRecord>, id: string, io: DeleteIo)
    requires !HasId(rows, id)
    ensures DeleteFileEffect(objects, rows, id, io) == DeleteOutcome(Error(404, NotFound), objects, rows)
  {
  }

  /**
   * A deletion whose three steps succeed answers 200, forgets the id, removes
   * the record's blob and thumbnail, and keeps every other record and every
   * other object.
   */
  lemma DeleteSucceeds(objects: map<string, StoredObject>, rows: seq<FileRecord>, id: string, io: DeleteIo,
    other: string, path: string)
    requires UniqueIds(rows) && HasId(rows, id)
    requires io.mainDelete.Succeeds? && io.thumbDelete.Succeeds? && io.recordDelete.Succeeds?
    ensures var o := DeleteFileEffect(objects, rows, id, io);
      var f := FindById(rows, id).value;
      o.response == Response(200, MessageBody(Deleted))
      && FindById(o.rows, id).None?
      && (other != id ==> FindById(o.rows, other) == FindById(rows, other))
      && f.storedPath !in o.objects
      && (HasThumbnail(f) ==> f.thumbnailPath.value !in o.objects)
      && (path != f.storedPath && ThumbnailSeen(f) != Some(path) ==>
            (path in o.objects <==> path in objects) && (path in objects ==> o.objects[path] == objects[path]))
  {
    Db.DeleteEffect(rows, id, id);
    Db.DeleteEffect(rows, id, other);
  }

  /** A main deletion that throws answers 500 and changes nothing. */
  lemma MainDeleteFailureChangesNothing(objects: map<string, StoredObject>, rows: seq<FileRecord>, id: string, io: DeleteIo)
    requires HasId(rows, id) && io.mainDelete.Throws?
    ensures DeleteFileEffect(objects, rows, id, io) == DeleteOutcome(Error(500, io.mainDelete.message), objects, rows)
  {
  }

  /**
   * The steps are not atomic: when the main blob is deleted and the
   * thumbnail's deletion throws, the record stays, still pointing at a blob
   * that is gone.
   */
  lemma ThumbnailFailureLeavesDanglingRecord(objects: map<string, StoredObject>, rows: seq<FileRecord>, id: string,
    io: DeleteIo)
    requires HasId(rows, id) && HasThumbnail(FindById(rows, id).value)
    requires io.mainDelete.Succeeds? && io.thumbDelete.Throws?
    ensures var o := DeleteFileEffect(objects, rows, id, io);
      var f := FindById(rows, id).value;
      o.response.status == 500 && FindById(o.rows, id) == Some(f) && f.storedPath !in o.objects
  {
  }

  /** Likewise when only the row's deletion throws: the record stays and none of its blobs do. */
  lemma RecordFailureLeavesDanglingRecord(objects: map<string, StoredObject>, rows: seq<FileRecord>, id: string,
    io: DeleteIo)
    requires HasId(rows, id)
    requires io.mainDelete.Succeeds? && io.thumbDelete.Succeeds? && io.recordDelete.Throws?
    ensures var o := DeleteFileEffect(objects, rows, id, io);
      var f := FindById(rows, id).value;
      o.response == Error(500, io.recordDelete.message) && FindById(o.rows, id) == Some(f)
      && f.storedPath !in o.objects && (HasThumbnail(f) ==> f.thumbnailPath.value !in o.objects)
  {
  }
}
