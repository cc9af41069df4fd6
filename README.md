# my-cdn API worker, modelled in Dafny

This project models the core of the my-cdn API worker, a Cloudflare Worker that
stores uploaded images and videos in an R2 bucket and their metadata in a D1
table. The model covers:

- how the worker names stored objects: the `{yyyymm}/{hash}.{ext}` and
  `{yyyymm}/{hash}_thumb.jpg` paths, a 16-character hex content hash, and the
  MIME/extension tables;
- the upload pipeline: ordered validation, then the main write, the
  best-effort thumbnail, the insert and the confirm-read;
- the metadata table and its query engine: sanitising the query string, then
  filter, count, sort, page window and `total_pages`; insert, rename and
  delete; the summary and detail projections of a record;
- the request gate and dispatch: the CORS preflight, public file serving, the
  bearer-key gate, the login route, the three file routes, the panel redirect
  and the 404s;
- the panel's pagination bar: the page-number window with ellipses, and when
  the four stepping buttons are disabled.

## Layout

One module per source file, plus three shared modules:

| file | module | models |
|---|---|---|
| `js_string.dfy` | `JsString` | the JavaScript builtins the core relies on: `split`, `join`, `includes`, `trim`, an ASCII `toLowerCase`, `padStart`, `toString(radix)`, `String(n)` and `parseInt(s, 10)` |
| `types.dfy` | `Types` | `apps/api/src/types.ts`: allow-lists, size ceilings, the two lookup tables, the closed enumerations, the record and response shapes |
| `storage.dfy` | `Storage` | `apps/api/src/utils/storage.ts`: path builders, hex rendering, content type by extension, and the bucket as a class |
| `record_order.dfy` | `RecordOrder` | `ORDER BY field ASC/DESC`: a total preorder on records and a sort that keeps every row |
| `db.dfy` | `Db` | `apps/api/src/utils/db.ts`: the table as a class, `getFiles` as filter, sort and window, `fileRecordToResponse` |
| `http.dfy` | `Http` | the response: a status and the body it carries |
| `auth.dfy` | `Auth` | `apps/api/src/middleware/auth.ts` |
| `files_route.dfy` | `FilesRoute` | `apps/api/src/routes/files.ts` |
| `upload.dfy` | `Upload` | `apps/api/src/routes/upload.ts` |
| `file_route.dfy` | `FileRoute` | `apps/api/src/routes/file.ts` |
| `worker.dfy` | `Worker` | `apps/api/src/index.ts` |
| `pagination.dfy` | `Pagination` | `getPageNumbers` and the button predicates of `apps/panel/src/components/Pagination.tsx` |

The handlers that change the stores are methods on the two store classes:
`ProcessUpload`, `HandleUpdateFile`, `HandleDeleteFile` and `Fetch`. These
classes are `Storage.Bucket`, a map from path to blob, and `Db.FilesTable`, a
sequence of rows with distinct ids. Each such method is proved equal to a
function of the stores' old contents (`UploadEffect`, `UpdateFileEffect`,
`DeleteFileEffect`, `FetchEffect`). The lemmas about the handlers are stated
on those functions.

Every call whose outcome lies outside the program is a parameter:

- the clock, as a year and month (`Storage.Clock`) and an ISO timestamp string;
- the SHA-256 digest, as a function;
- `atob`, as a partial function;
- the UUID, as an id assumed fresh;
- the fate of each store write, as an explicit `Fault` (`Succeeds` or
  `Throws(message)`).

The table is a sequence in insertion order rather than a map. `ORDER BY`
leaves ties in an order of the database's choosing, and the sequence gives
those ties a definite order (table order). `FindById` gives the map view.

## Behaviour worth noting

Some of the code's behaviour is easy to misread. The model follows the code:

- **Upload response.** `processUpload` calls
  `fileRecordToResponse(insertedFile, base)` with no third argument, so an
  upload answers with the summary shape, without the detail fields
  (`apps/api/src/routes/upload.ts:150`). The panel's API documentation shows
  the same shape (`apps/panel/src/components/ApiDocsModal.tsx:55-69`).
  `Upload.SuccessfulUpload` states this.
- **Dangling records.** Deleting the blobs before the record does not rule out
  a dangling record. If the main blob is deleted and the thumbnail deletion
  throws, the handler answers 500 and the record stays, naming a main blob
  that is gone. The same happens when only the row deletion throws.
  `FileRoute.ThumbnailFailureLeavesDanglingRecord` and
  `FileRoute.RecordFailureLeavesDanglingRecord` prove this. The ordering does
  guarantee one thing: a failure of the first deletion changes nothing
  (`FileRoute.MainDeleteFailureChangesNothing`).
- **Prototype lookups.** `EXTENSION_TO_MIME` and `MIME_TO_EXTENSION` are
  plain objects, so a lookup by a name they do not hold falls through to
  `Object.prototype`. Its twelve members are all truthy
  (`Storage.PrototypeMembers`).
  - The served-path lookup lowercases first. It can only find the two
    members spelled without capitals, `constructor` and `__proto__`, so their
    text becomes the `Content-Type` in place of `application/octet-stream`
    (`Worker.PrototypeExtensionServed`). A path ending in a capitalised name,
    such as `.toString`, is served as `application/octet-stream`
    (`Storage.CapitalPrototypeNamesNotServed`).
  - The upload's extension lookup uses the type as written, so all twelve
    names find a member. A `toString` type would get the extension
    `function toString() { [native code] }` (`Upload.ExtensionFor`). Only
    allowed types reach that lookup, so no upload writes such a path: every
    path an upload writes ends in a table extension
    (`Storage.ServedTypeOfStoredPath`).
- **Text in the file field.** The upload form's `file` field may hold a
  `File` or text (`Upload.FormField`). Text gets past `!file` unless it is
  empty, and then its `type` reads as `undefined`, so the answer is the
  invalid-type 400 for `undefined` (`Upload.ValidationOrder`).
- **Thumbnail path.** The thumbnail path is chosen before the thumbnail write
  (`apps/api/src/routes/upload.ts:112-113`). A write that throws is caught, so
  the record still names a thumbnail that was never stored.

## Model

| member | source | states |
|---|---|---|
| `Types.AllowListsShape` | apps/api/src/types.ts:84-98 | five image types and two video types, no type in both lists; the ceilings are 5242880 and 15728640 bytes |
| `Types.ExtensionRoundTrip` | apps/api/src/types.ts:100-118 | every allowed type has an extension, and that extension maps back to the type, except `image/jpg`, which comes back as `image/jpeg` |
| `Types.ExtensionTargetsAllowed` | apps/api/src/types.ts:110-118 | every type the extension table yields is an allowed type |
| `Types.ParseSortField` | apps/api/src/types.ts:71 | a string is a sort field exactly when it is one of the three names, and it then names that field |
| `Types.ParseSortOrder` | apps/api/src/types.ts:72 | a string is an order exactly when it is `asc` or `desc`, and it then names that order |
| `Types.ParseFilter` | apps/api/src/types.ts:73 | a string is a type filter exactly when it is `image`, `video` or `all`, and it then names that filter |
| `Types.EnumNamesRoundTrip` | apps/api/src/types.ts:71-73 | the name of each value of the three closed enumerations reads back as that value |
| `JsString.Split` | apps/api/src/middleware/auth.ts:27 | `split(sep)` gives at least one piece, and no piece holds the separator |
| `JsString.JoinSplit` | apps/api/src/middleware/auth.ts:27 | joining the pieces of `split(sep)` with `sep` gives back the string |
| `JsString.SplitCons` | apps/api/src/middleware/auth.ts:27 | a separator-free prefix followed by the separator is split off as the first piece |
| `JsString.SplitFirst` | apps/api/src/middleware/auth.ts:27 | the first piece is `a` and a second piece follows exactly when the string starts with `a` and the separator; `a` is the only piece exactly when the string is `a` without a separator |
| `JsString.SplitNoSep` | apps/api/src/middleware/auth.ts:27 | a string without the separator is a single piece |
| `JsString.LastPieceAfter` | apps/api/src/utils/storage.ts:51 | the last piece of `split('.')` is the text after the last `.` |
| `JsString.JoinContains` | apps/api/src/routes/upload.ts:78 | every joined piece occurs in the joined string |
| `JsString.TrimStart` | apps/api/src/routes/file.ts:68 | `trimStart` gives a suffix of the input that starts with no white space, and everything it dropped is white space |
| `JsString.TrimEnd` | apps/api/src/routes/file.ts:68 | `trimEnd` gives a prefix of the input that ends with no white space, and everything it dropped is white space |
| `JsString.TrimStartEmpty` | apps/api/src/routes/file.ts:68 | `trimStart` gives the empty string exactly for an all-white-space input |
| `JsString.TrimEndEmpty` | apps/api/src/routes/file.ts:68 | `trimEnd` gives the empty string exactly for an all-white-space input |
| `JsString.TrimEmptyIffBlank` | apps/api/src/routes/file.ts:68 | `s.trim() === ''` holds exactly when every character of `s` is ECMAScript white space |
| `JsString.ToLowerAscii` | apps/api/src/utils/storage.ts:51 | lowercasing keeps the length, turns every capital into its lowercase letter, keeps every other character, and leaves no capital |
| `JsString.PadStart` | apps/api/src/utils/storage.ts:33 | `padStart(n, fill)` gives exactly `max(n, |s|)` characters: copies of `fill`, then the input |
| `JsString.ToRadix` | apps/api/src/utils/storage.ts:46 | `n.toString(base)` is at least one digit of that base, with no leading zero |
| `JsString.Decimal` | apps/api/src/utils/storage.ts:33 | `String(n)` is a non-empty run of decimal digits |
| `JsString.DigitRun` | apps/api/src/routes/files.ts:49 | the length of the longest run of leading digits |
| `JsString.WordRun` | apps/api/src/routes/upload.ts:110 | the length of the longest run of leading `\w` characters |
| `JsString.DigitsValueDecimal` | apps/api/src/routes/files.ts:49 | the digits `String(n)` writes have the value `n` |
| `JsString.ParseIntDecimal` | apps/api/src/routes/files.ts:49 | `parseInt` reads back the digits `String(n)` wrote, whatever non-digit text follows them |
| `JsString.ParseIntOfDecimal` | apps/api/src/routes/files.ts:49 | `parseInt(String(n), 10) == n` |
| `JsString.ParseIntMinus` | apps/api/src/routes/files.ts:53 | after a leading `-`, `parseInt` reads the digits and negates them |
| `Storage.YearMonthShape` | apps/api/src/utils/storage.ts:31-35 | for a four-digit year, the prefix is the year and then the month zero-padded to two digits: six decimal digits |
| `Storage.ThumbnailBesideStoragePath` | apps/api/src/utils/storage.ts:37-41 | the thumbnail path is the storage path with `_thumb` inserted before its last `.` |
| `Storage.StoragePath` | apps/api/src/utils/storage.ts:31-35 | the path is the month directory, a `/`, then the hash, a `.` and the extension |
| `Storage.ThumbnailPath` | apps/api/src/utils/storage.ts:37-41 | the thumbnail path is the storage path of the name `{hash}_thumb` |
| `Storage.HexPair` | apps/api/src/utils/storage.ts:46 | each byte renders as two lowercase hex digits |
| `Storage.HexByteDigits` | apps/api/src/utils/storage.ts:46 | `b.toString(16).padStart(2, '0')` is exactly those two hex digits, high nibble first |
| `Storage.Hex` | apps/api/src/utils/storage.ts:43-47 | the digest renders to twice its length in lowercase hex |
| `Storage.HexIsJoinedBytes` | apps/api/src/utils/storage.ts:46 | the rendering is the per-byte pairs joined with `''` |
| `Storage.HexAppend` | apps/api/src/utils/storage.ts:46 | the rendering distributes over concatenation |
| `Storage.HexInjective` | apps/api/src/utils/storage.ts:46 | two digests of the same length with the same rendering are equal |
| `Storage.FileHashShape` | apps/api/src/utils/storage.ts:43-47 | a digest of at least eight bytes gives the hex of its first eight bytes: sixteen lowercase hex characters |
| `Storage.FileHash` | apps/api/src/utils/storage.ts:43-47 | the hash is a prefix of the digest's hex rendering, 16 characters long, or the whole rendering when it is shorter |
| `Storage.SamePathSameContentAddress` | apps/api/src/utils/storage.ts:31-47 | two uploads stored under one path in one month agree on the first eight digest bytes and on the extension |
| `Storage.ThumbnailNeverOverwritesMain` | apps/api/src/utils/storage.ts:31-41 | for any hash and any two clock readings, a main path and a thumbnail path never coincide |
| `Storage.ContentTypeFromPath` | apps/api/src/utils/storage.ts:49-52 | a table extension gives its type; the lowercased extensions `constructor` and `__proto__` give the inherited `Object.prototype` members, rendered as header text; every other extension gives an allowed type or `application/octet-stream` |
| `Storage.ContentTypeOfExtension` | apps/api/src/utils/storage.ts:49-52 | a path ending in `.ext`, for an extension without `.` or capitals, gets the table's type for `ext`, the prototype member for `constructor` or `__proto__`, and `application/octet-stream` otherwise |
| `Storage.ExtensionsArePlain` | apps/api/src/types.ts:100-118 | an allowed type's extension has no `.` or capital letter and is in the extension table |
| `Storage.ServedTypeOfStoredPath` | apps/api/src/utils/storage.ts:49-52 | a blob stored under a derived path is typed as the type it was uploaded with (`image/jpg` as `image/jpeg`), whatever precedes the path |
| `Storage.Bucket.Put` | apps/api/src/utils/storage.ts:3-15 | `uploadToR2` replaces the blob at the path with the data, its type and the immutable cache control, or throws and changes nothing |
| `Storage.Bucket.Delete` | apps/api/src/utils/storage.ts:17-22 | `deleteFromR2` removes the path, idempotently, or throws and changes nothing |
| `RecordOrder.NotAfterTotal` | apps/api/src/utils/db.ts:113-118 | any two rows can be ordered one way or the other |
| `RecordOrder.NotAfterTransitive` | apps/api/src/utils/db.ts:113-118 | the order is transitive |
| `RecordOrder.Insert` | apps/api/src/utils/db.ts:113-118 | inserting into an ordered sequence keeps it ordered and adds only that row |
| `RecordOrder.SortRecords` | apps/api/src/utils/db.ts:113-118 | `ORDER BY field order` is a permutation of the rows, and the result is ordered |
| `Db.StampKeepsColumns` | apps/api/src/utils/db.ts:11-37 | the inserted row keeps every given column, and both timestamps are `now` |
| `Db.FindById` | apps/api/src/utils/db.ts:39-49 | a row is found exactly when one has the id; the row found has that id and is in the table |
| `Db.FindEachRow` | apps/api/src/utils/db.ts:39-49 | with distinct ids, looking up a row's id finds that row |
| `Db.FindAfterAppend` | apps/api/src/utils/db.ts:11-49 | appending a row keeps every earlier look-up and makes the new id findable |
| `Db.Renamed` | apps/api/src/utils/db.ts:58-63 | the `UPDATE` keeps the number of rows and every id |
| `Db.RenameEffect` | apps/api/src/utils/db.ts:58-63 | a rename changes only the named record, and only its `original_name` and `updated_at`; every other look-up is unchanged |
| `Db.RenamedKeepsIds` | apps/api/src/utils/db.ts:58-63 | a rename keeps the ids distinct |
| `Db.WithoutId` | apps/api/src/utils/db.ts:68-70 | the `DELETE` keeps exactly the rows with another id |
| `Db.WithoutIdKeepsIds` | apps/api/src/utils/db.ts:68-70 | deleting keeps the ids distinct |
| `Db.DeleteEffect` | apps/api/src/utils/db.ts:68-70 | after a delete the id is gone, and every other look-up is unchanged |
| `Db.DeleteAbsent` | apps/api/src/utils/db.ts:68-70 | deleting an absent id changes nothing |
| `Db.FilesTable.InsertFile` | apps/api/src/utils/db.ts:11-37 | `insertFile` appends the stamped row and keeps the ids distinct, or throws and changes nothing |
| `Db.FilesTable.UpdateFile` | apps/api/src/utils/db.ts:51-66 | `updateFile` runs the `UPDATE` only when a name is given, and that statement may throw; it then reads the record back |
| `Db.FilesTable.DeleteFile` | apps/api/src/utils/db.ts:68-70 | `deleteFile` removes the rows with the id, or throws and changes nothing |
| `Db.FilesTable.GetFileById` | apps/api/src/utils/db.ts:39-49 | a record is found exactly when some row has the id, and the one found is a row of the table with that id |
| `Db.InsertEffect` | apps/api/src/utils/db.ts:11-37 | an insert adds exactly one row, findable and stamped with `now`, and changes no other look-up |
| `Db.InsertKeepsIds` | apps/api/src/utils/db.ts:11-37 | inserting a fresh id keeps the ids distinct |
| `Db.WhereClauseMeansMatches` | apps/api/src/utils/db.ts:80-93 | the built `WHERE` conditions hold exactly when the type matches (unless `all`) and the name contains the search (when there is one) |
| `Db.Filter` | apps/api/src/utils/db.ts:80-93 | the selected rows are exactly the table's rows that satisfy every condition, each as often as it occurs in the table |
| `Db.CeilDivIsCeiling` | apps/api/src/utils/db.ts:131 | `Math.ceil(total / limit)` is the least page count whose pages hold every result; it is 0 exactly when `total` is 0 |
| `Db.Window` | apps/api/src/utils/db.ts:117 | `LIMIT limit OFFSET offset` is the run of at most `limit` rows starting at `offset` |
| `Db.Results` | apps/api/src/utils/db.ts:96-118 | the results are the matching rows, each as often as it occurs in the table, in the order asked for |
| `Db.ResultsOnce` | apps/api/src/utils/db.ts:112-118 | over a table with distinct ids, each matching record is a result exactly once and no other record is one |
| `Db.FilterCounts` | apps/api/src/utils/db.ts:104-110 | the rows the `WHERE` clause selects are as many as `COUNT(*)` counts, counting the matching rows one by one |
| `Db.GetFiles` | apps/api/src/utils/db.ts:72-134 | the page echoes `page` and `limit`; `total` is the count of matching rows and the number of results; `total_pages` is its ceiling over `limit`; the files are at most `limit` matching rows, in order |
| `Db.PageIsWindow` | apps/api/src/utils/db.ts:77 | entry `k` of the page is result `(page - 1) * limit + k` |
| `Db.ResultsMatch` | apps/api/src/utils/db.ts:80-93 | every result is a matching row of the table |
| `Db.WindowWithin` | apps/api/src/utils/db.ts:117 | a window of an ordered sequence is ordered and holds only its elements |
| `Db.TotalIgnoresPaging` | apps/api/src/utils/db.ts:104-110 | `total` does not depend on `page` or `limit` |
| `Db.PagesCoverResults` | apps/api/src/utils/db.ts:72-134 | each result appears on the page its position gives, and that page is within `total_pages` |
| `Db.PageWithinCount` | apps/api/src/utils/db.ts:131 | a page that starts before the last result is within `total_pages` |
| `Db.PageArithmetic` | apps/api/src/utils/db.ts:77 | position `k` is slot `k % limit` of page `k / limit + 1`, and that page is within the count |
| `Db.ToResponse` | apps/api/src/utils/db.ts:136-161 | the projection is total: `url` is the base, `/` and the stored path; `thumbnail_url` is present exactly when the thumbnail path is neither null nor empty; the detail fields are present exactly when asked for |
| `Db.SummaryForgetsDetails` | apps/api/src/utils/db.ts:141-158 | the summary is the detail shape without its detail fields |
| `Db.UrlInjective` | apps/api/src/utils/storage.ts:54-56 | `buildFileUrl` with one base gives distinct URLs for distinct paths |
| `Storage.FileUrl` | apps/api/src/utils/storage.ts:54-56 | the URL is the base followed by `/` and the stored path |
| `Db.DetailDeterminesRecord` | apps/api/src/utils/db.ts:136-161 | the detail shape loses only the difference between a null and an empty thumbnail path |
| `Auth.ValidateApiKey` | apps/api/src/middleware/auth.ts:8-62 | "header required" exactly for a missing or empty header; a rejection is one of the three messages; an accepted header has scheme `Bearer` and the key is non-empty |
| `Auth.BearerPrefix` | apps/api/src/middleware/auth.ts:27-29 | scheme `Bearer` with a token piece present exactly when the header starts with `"Bearer "` |
| `Auth.AuthorizedIff` | apps/api/src/middleware/auth.ts:27-61 | a header authorizes exactly when it is `"Bearer "` and the key, alone or followed by a space and anything; the key must be non-empty and hold no space |
| `Auth.ValidateAdminCredentials` | apps/api/src/middleware/auth.ts:64-70 | exactly the configured username and password pair is accepted, compared strictly |
| `Auth.ExtraPiecesIgnored` | apps/api/src/middleware/auth.ts:27 | `"Bearer k extra"` is accepted |
| `Auth.DoubleSpaceIsBadFormat` | apps/api/src/middleware/auth.ts:27-43 | `"Bearer  k"` has an empty token and is a format error |
| `Auth.WrongKeyMessage` | apps/api/src/middleware/auth.ts:45-59 | a well-formed header with another token is told the key is wrong |
| `FilesRoute.ParseQueryParams` | apps/api/src/routes/files.ts:47-82 | sanitising never fails: page ≥ 1, limit within 1..100, and a search, when present, is non-empty |
| `FilesRoute.DefaultLiterals` | apps/api/src/routes/files.ts:49-53 | the written defaults `'1'` and `'20'` parse as 1 and 20 |
| `FilesRoute.MissingMeansDefault` | apps/api/src/routes/files.ts:47-82 | no parameters gives page 1, limit 20, `created_at`, `desc`, `all` and no search |
| `FilesRoute.PageRule` | apps/api/src/routes/files.ts:49-50 | a decimal page (with any non-digit tail) is taken as it is when positive, and is 1 when it is 0 |
| `FilesRoute.PageNotANumber` | apps/api/src/routes/files.ts:49-50 | a page that does not parse is 1 |
| `FilesRoute.PageAndLimitFallbacks` | apps/api/src/routes/files.ts:47-55 | over every query string: a missing, empty, non-numeric or non-positive page is 1, any other page is kept; the same limits are 20, any other limit is kept up to 100 and capped there |
| `FilesRoute.LimitRule` | apps/api/src/routes/files.ts:53-55 | a decimal limit of 0 becomes 20 (not 1), 1 to 100 stay, and more becomes 100 |
| `FilesRoute.NegativeLimit` | apps/api/src/routes/files.ts:53-55 | a negative limit becomes 20 |
| `FilesRoute.UnknownEnumsFallBack` | apps/api/src/routes/files.ts:58-76 | an unknown sort, order or type falls back to `created_at`, `desc` and `all` |
| `FilesRoute.ParseRendered` | apps/api/src/routes/files.ts:47-82 | sanitising a valid query's own parameters gives that query back |
| `FilesRoute.ParseIdempotent` | apps/api/src/routes/files.ts:47-82 | sanitising twice is sanitising once |
| `FilesRoute.Summaries` | apps/api/src/routes/files.ts:17-19 | the listing maps each record, in order, to its summary shape |
| `FilesRoute.HandleGetFiles` | apps/api/src/routes/files.ts:10-45 | a 200 listing of the summaries of the requested page, with its pagination block |
| `FilesRoute.ListingIsSummaries` | apps/api/src/routes/files.ts:17-19 | no listing entry carries detail fields, and there are at most `limit` ≤ 100 of them |
| `Upload.ValidateUpload` | apps/api/src/routes/upload.ts:48-92 | an upload is accepted exactly when it is multipart, its form parses, its `file` field holds a `File`, the type is allowed and the size is at most the ceiling; every rejection is a 400 |
| `Upload.InvalidTypeListsAllowed` | apps/api/src/routes/upload.ts:75-81 | the message for a disallowed type names each of the seven allowed types |
| `Upload.TooLargeMessages` | apps/api/src/routes/upload.ts:84-92 | the size messages read `5MB` for images and `15MB` for videos |
| `Upload.ValidationOrder` | apps/api/src/routes/upload.ts:48-92 | the checks come in source order with their messages; an absent or empty-text `file` field is missing, other text gets the type message for `undefined`; a size equal to the ceiling passes |
| `Upload.AllowedTypesHaveExtensions` | apps/api/src/routes/upload.ts:99 | an allowed type uses its own extension, never `bin` |
| `Upload.ExtensionFor` | apps/api/src/routes/upload.ts:99 | the extension is never empty: the table's extension for a type it holds, the `Object.prototype` member's text for any of the twelve prototype names as written (`toString` among them), `bin` for any other |
| `Upload.StripsDataUrl` | apps/api/src/routes/upload.ts:110 | a `data:image/<word>;base64,` header is removed, whatever follows it |
| `Upload.StripDataUrlPrefix` | apps/api/src/routes/upload.ts:110 | the result is a suffix of the input; text not starting with `data:image/` is kept; whatever is removed ends in `;base64,` |
| `Upload.KeepsPlainBase64` | apps/api/src/routes/upload.ts:110 | text that does not start with `data:` is left as it is |
| `Upload.RecordUploadSucceeds` | apps/api/src/routes/upload.ts:124-152 | a successful insert of a fresh id is read back: one more row, and the answer is its summary |
| `Upload.ProcessUpload` | apps/api/src/routes/upload.ts:47-153 | the method leaves the bucket and table as `UploadEffect` says, and answers as it says |
| `Upload.UploadStatuses` | apps/api/src/routes/upload.ts:20-45 | the answer is 201 exactly when a record was stored; otherwise 400 or 500 with an error body |
| `Upload.HandleUpload` | apps/api/src/routes/upload.ts:20-45 | a stored file answers 201 with it; a rejection answers with its own status, a throw with 500, both with an error body |
| `Upload.FailedValidationWritesNothing` | apps/api/src/routes/upload.ts:50-103 | every check precedes the first write: a rejected upload changes neither store |
| `Upload.SuccessfulUpload` | apps/api/src/routes/upload.ts:97-152 | the bytes are stored under the content-addressed path and no object but it and the thumbnail is added or changed; one record is appended with the upload's name, type, size, kind, null dimensions, the stored path and `now`; the answer is its summary |
| `Upload.ThumbnailIsBestEffort` | apps/api/src/routes/upload.ts:106-118 | the upload succeeds whatever the thumbnail does; the record names a thumbnail exactly when the field is non-empty and decodes, and keeps that path even when its write throws; the whole new bucket is the old one plus the main blob, plus the thumbnail exactly when its write succeeds |
| `Upload.MainWriteFailureWritesNothing` | apps/api/src/routes/upload.ts:103 | a main write that throws answers 500 with its message and changes neither store |
| `Upload.InsertFailureOrphansBlob` | apps/api/src/routes/upload.ts:103-135 | an insert that throws leaves the main blob in the bucket with no record naming it |
| `FileRoute.GetFileAnswers` | apps/api/src/routes/file.ts:5-37 | 200 exactly for a stored id, with that record's detail shape; otherwise 404 `File not found` |
| `FileRoute.HandleGetFile` | apps/api/src/routes/file.ts:5-37 | 200 exactly when some row has the id; otherwise 404 `File not found` |
| `FileRoute.BadNameIsTrimTest` | apps/api/src/routes/file.ts:68 | a name is refused exactly when it is not a string or trims to `''` |
| `FileRoute.HandleUpdateFile` | apps/api/src/routes/file.ts:39-105 | the method leaves the table as `UpdateFileEffect` says, and answers as it says |
| `FileRoute.UpdateUnknownId` | apps/api/src/routes/file.ts:46-53 | an unknown id is a 404 before the body is read, and nothing changes |
| `FileRoute.MalformedBodyRefused` | apps/api/src/routes/file.ts:55-64 | for a stored id, a body that is not JSON is 400 `Invalid JSON body`, a `null` body ends in the handler's 500 with the access error's message, and the table is unchanged in both cases |
| `FileRoute.RenameSucceeds` | apps/api/src/routes/file.ts:67-93 | a valid name is stored untrimmed with `updated_at = now` on that record only, and the answer is its new detail shape |
| `FileRoute.EmptyPatchIsRead` | apps/api/src/routes/file.ts:67-93 | a body without `original_name` changes nothing and answers as a read |
| `FileRoute.BlankNameRefused` | apps/api/src/routes/file.ts:67-74 | a non-string or blank name is a 400 and nothing changes |
| `FileRoute.ReadBackFinds` | apps/api/src/routes/file.ts:77-86 | within one request the read-back always finds the record, so `Failed to update file` never happens; a well-formed request answers 200 |
| `FileRoute.PatchReadsBack` | apps/api/src/routes/file.ts:66-93 | for a stored id, the patch step either answers 200 or leaves the table as it was; it answers 200 when no name is sent, and when a valid name is sent and the statement succeeds |
| `FileRoute.HandleDeleteFile` | apps/api/src/routes/file.ts:107-151 | the method leaves the stores as `DeleteFileEffect` says, and answers as it says |
| `FileRoute.DeleteUnknownId` | apps/api/src/routes/file.ts:114-121 | deleting an unknown id is a 404 that touches neither store |
| `FileRoute.DeleteSucceeds` | apps/api/src/routes/file.ts:123-140 | when all three steps succeed: 200, the id is gone, its blob and thumbnail are gone, and every other record and object stays |
| `FileRoute.MainDeleteFailureChangesNothing` | apps/api/src/routes/file.ts:124 | a main deletion that throws answers 500 and changes nothing |
| `FileRoute.ThumbnailFailureLeavesDanglingRecord` | apps/api/src/routes/file.ts:124-132 | a thumbnail deletion that throws after the main one leaves the record naming a deleted blob |
| `FileRoute.RecordFailureLeavesDanglingRecord` | apps/api/src/routes/file.ts:124-132 | a row deletion that throws leaves the record naming deleted blobs |
| `Worker.SlugRun` | apps/api/src/index.ts:33 | the length of the longest run of leading `[\w-]` characters |
| `Worker.ServeFile` | apps/api/src/index.ts:97-126 | 200 exactly when the path without its slash is stored; then the blob's bytes and size, and the type for the path's extension: the prototype member's text for `constructor` or `__proto__`, otherwise an allowed type or `application/octet-stream`; otherwise a plain 404 `File not found` |
| `Worker.PublicPathOf` | apps/api/src/index.ts:33 | `/<6 digits>/<name>.<ext>` matches the public file pattern |
| `Worker.IsPublicFilePath` | apps/api/src/index.ts:33 | a public file path never starts with `/api/` or `/panel` and is not `/`, so the routes after it are not shadowed |
| `Worker.StoredPathsArePublic` | apps/api/src/index.ts:33 | every main and thumbnail path an upload writes (four-digit year) is a public file path |
| `Worker.StoredBlobIsServed` | apps/api/src/index.ts:103-125 | a blob under an upload's path is served as written, with its upload type |
| `Storage.CapitalPrototypeNames` | apps/api/src/utils/storage.ts:49-52 | the ten prototype names with a capital never lowercase to themselves, and their lowercased forms are in neither table |
| `Storage.CapitalPrototypeNamesNotServed` | apps/api/src/utils/storage.ts:49-52 | a path ending in one of those ten names is served as `application/octet-stream` |
| `Worker.PrototypeExtensionServed` | apps/api/src/index.ts:112-114 | a stored public path ending in `.constructor` or `.__proto__` is served with the inherited prototype member's text as its type |
| `Worker.FileIdOf` | apps/api/src/index.ts:155-157 | an id is captured exactly for a prefix that lowercases to `/api/file/` (the `i` flag covers the literal too) followed by one or more hex digits or dashes in either case; the id is everything after the prefix |
| `Worker.FileIdOfRoute` | apps/api/src/index.ts:155-157 | any such id, a UUID among them, is routed after the prefix written in any mix of cases |
| `Worker.FilePrefixCases` | apps/api/src/index.ts:155 | `/api/file/`, `/api/File/` and `/api/FILE/` all capture the id |
| `Worker.LoginIff` | apps/api/src/index.ts:176-211 | login succeeds exactly with both configured non-empty strings, and then hands out the API key; anything else is 400 or 401 |
| `Worker.HandleLogin` | apps/api/src/index.ts:176-211 | the answer is 200, 400 or 401; 200 carries the API key and `Login successful`; 401 exactly for two non-empty strings that are not the configured pair; the others carry an error |
| `Worker.LoginTokenAuthorizes` | apps/api/src/index.ts:195-204 | the login token passes the key gate when the key has no space |
| `Worker.Fetch` | apps/api/src/index.ts:16-95 | the method leaves the stores as `FetchEffect` says, and answers as it says; the routing lemmas below state what that is |
| `Worker.PreflightFirst` | apps/api/src/index.ts:22-27 | `OPTIONS` on any path is 204 with no body and changes nothing |
| `Worker.GateBeforeApi` | apps/api/src/index.ts:134-142 | without a valid key every API route but the login, known or not, is the gate's 401, and nothing changes |
| `Worker.LoginBypassesGate` | apps/api/src/index.ts:134-136 | `POST /api/auth/login` reaches the login handler without a key |
| `Worker.UnknownApiRoute` | apps/api/src/index.ts:155-173 | behind a valid key, an unknown endpoint or a file route with another method is 404 `API endpoint not found` |
| `Worker.FileRoutesDispatch` | apps/api/src/index.ts:155-167 | behind a valid key, a file route (its `file` in any case) runs the read, rename or delete handler for `GET`, `PATCH` or `DELETE` |
| `Worker.OnlyAuthorizedWrites` | apps/api/src/index.ts:128-174 | only an upload, or a PATCH or DELETE of a file, with a valid key, changes a store |
| `Worker.ReadsChangeNothing` | apps/api/src/index.ts:16-174 | a `GET` changes neither store |
| `Worker.PanelRedirects` | apps/api/src/index.ts:41-44 | `/panel` plus a rest redirects to the panel origin plus that rest, or `/` when the rest is empty |
| `Worker.PanelAnswers` | apps/api/src/index.ts:40-44 | a `/panel` path is a 302 to the panel URL when that URL parses, and otherwise the outer `catch`'s 500 `Internal server error`; neither store changes |
| `Worker.PublicFilesNeedNoKey` | apps/api/src/index.ts:29-93 | a public file path is served from the bucket for any method, without the key gate; a bucket read that throws ends in the outer `catch`, 500 `Internal server error`; neither store changes |
| `Worker.UnknownPathNotFound` | apps/api/src/index.ts:60-65 | every other path is 404 `Not found` |
| `Pagination.Range` | apps/panel/src/components/Pagination.tsx:31-33 | the buttons `a` to `b`, in order |
| `Pagination.GetPageNumbers` | apps/panel/src/components/Pagination.tsx:14-41 | the built array is the leading part, the window and the trailing part |
| `Pagination.AppendWindow` | apps/panel/src/components/Pagination.tsx:31-33 | the loop appends exactly the window's buttons |
| `Pagination.WindowShape` | apps/panel/src/components/Pagination.tsx:19-24 | the window lies in `1..totalPages`, holds the page and holds `min(5, totalPages)` numbers |
| `Pagination.Layout` | apps/panel/src/components/Pagination.tsx:26-38 | where page 1, each ellipsis, the window and the last page sit |
| `Pagination.Ends` | apps/panel/src/components/Pagination.tsx:14-41 | at most nine entries; the first is page 1, the last is `totalPages`, and the page is shown |
| `Pagination.ShownPages` | apps/panel/src/components/Pagination.tsx:26-38 | the numbers shown are exactly 1, `totalPages` and the window |
| `Pagination.NumberAt` | apps/panel/src/components/Pagination.tsx:26-38 | the number at each numeric position |
| `Pagination.StrictlyIncreasing` | apps/panel/src/components/Pagination.tsx:26-38 | the numbers lie in `1..totalPages` and strictly increase |
| `Pagination.EllipsisMarksGap` | apps/panel/src/components/Pagination.tsx:26-37 | an ellipsis sits between two numbers more than one apart, and adjacent numbers differ by one, so no two ellipses touch |
| `Pagination.ButtonsStayInRange` | apps/panel/src/components/Pagination.tsx:12-102 | nothing is drawn for one page or fewer; first and previous are disabled exactly on page 1, next and last exactly on the last page; every enabled button goes to another page in range |

## Left out

- I/O and platform plumbing are not modelled. This covers `Request` and
  `Response` construction, CORS header copying and its headers, the `ETag`
  header, multipart and JSON body parsing, and `atob`. The parsers and `atob`
  appear only through their results: `FormBody`, `JsonBody`, `LoginBody` and
  `decodeBase64`.
- Reads of the table never fail in the model. A throwing `getFileById` or
  `getFiles` would end in the enclosing handler's `catch`, a 500 with the
  thrown message, which is not modelled. A throwing bucket read `getFromR2`
  is modelled: `handleFileServing` has no `catch`, so it ends in the outer
  `catch` of `fetch`, a 500 `Internal server error`
  (`Worker.PublicFilesNeedNoKey`).
- Writes that throw are modelled. So are the per-handler `catch` blocks that
  turn what was thrown into a 500.
- The outer `catch` of `fetch` (`apps/api/src/index.ts:78-93`) is modelled
  for the two modelled calls that reach it. One is the bucket read of a
  public file, outside every handler's own `catch`. The other is the panel
  redirect, whose `Response.redirect` throws for a target URL that does not
  parse, such as `/panel:abc` (an invalid port). URL parsing is the
  parameter `urlParses` (`Worker.PanelAnswers`).
- The response to the upload form's `thumbnail` field being something other
  than a string is not modelled. The field is taken as an optional string.
- Each request runs atomically in the model: the stores do not change
  between the steps of one handler. Concurrent requests do not interleave.
- `FileRoute.ReadBackFinds`: "Failed to update file never happens" relies on
  that atomicity. A `DELETE` of the same id landing between the existence
  check (`apps/api/src/routes/file.ts:46`) and the read-back
  (`apps/api/src/routes/file.ts:77-86`) would make the `PATCH` answer 500
  `Failed to update file`. The model cannot reach that answer.
- `Upload.RecordUpload`: its `None` branch, 500 `Failed to retrieve uploaded
  file` (`apps/api/src/routes/upload.ts:138-146`), is unreachable for the
  same reason. Only a `DELETE` of the fresh id between the insert and the
  read that confirms it would produce that answer.
- SHA-256, `uuidv4` and the clock are parameters (see above).
  `generateSessionToken` is random and unused. `extractPathFromUrl` is URL
  parsing.
- `Db.Holds`: `LIKE '%s%'` is modelled as case-sensitive containment. SQLite's
  ASCII case-insensitivity and the unescaped `%` and `_` wildcards are not
  modelled.
- `JsString.ToLowerAscii`: only ASCII letters are lowercased. A served
  extension is a `\w+` run, so it is ASCII. In the file route's `i` match, a
  non-unicode regular expression never folds a non-ASCII character onto an
  ASCII one, so ASCII folding of the prefix is exact there.
- `JsString.ParseInt`: mathematical integers are used. There is no rounding
  of huge values to doubles.
- Strings are sequences of Unicode scalar values, not UTF-16 code units.
- `FilesRoute.NegativeLimit`: stated for a minus sign followed by any digits.
  Every other non-positive or unparsable page and limit is covered by
  `FilesRoute.PageAndLimitFallbacks`.
- `RecordOrder.SortRecords`: ties keep table order. The database may break
  ties in any order.
- The panel's other components, its API client, `formatFileSize` and
  `formatDate` are not part of this model. Neither is the JSX markup of the
  pagination bar.
- `Pagination.GetPageNumbers`: the `for` loop is the separate method
  `AppendWindow`, which `GetPageNumbers` calls once.
