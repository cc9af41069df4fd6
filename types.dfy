/**
 * The worker's shared vocabulary: the upload allow-lists and size ceilings,
 * the two lookup tables between MIME types and file extensions, the closed
 * enumerations of the query engine, the stored record and its response shape,
 * and the deployment configuration.
 */
module Types {
  import opened JsString

  newtype Byte = b: int | 0 <= b < 256

  // ---------------------------------------------------------------- allow-lists and ceilings

  const ImageTypes: seq<string> := ["image/jpeg", "image/jpg", "image/png", "image/webp", "image/gif"]
  const VideoTypes: seq<string> := ["video/mp4", "video/webm"]

  const MiB: nat := 1024 * 1024
  const MaxImageSize: nat := 5 * MiB
  const MaxVideoSize: nat := 15 * MiB

  const MimeToExtension: map<string, string> := map[
    "image/jpeg" := "jpg",
    "image/jpg" := "jpg",
    "image/png" := "png",
    "image/webp" := "webp",
    "image/gif" := "gif",
    "video/mp4" := "mp4",
    "video/webm" := "webm"
  ]

  const ExtensionToMime: map<string, string> := map[
    "jpg" := "image/jpeg",
    "jpeg" := "image/jpeg",
    "png" := "image/png",
    "webp" := "image/webp",
    "gif" := "image/gif",
    "mp4" := "video/mp4",
    "webm" := "video/webm"
  ]

  predicate IsAllowedType(mime: string) { mime in ImageTypes || mime in VideoTypes }

  /** The two allow-lists: five image types, two video types, no type in both. */
  lemma AllowListsShape()
    ensures |ImageTypes| == 5 && |VideoTypes| == 2
    ensures forall m :: m in ImageTypes ==> m !in VideoTypes
    ensures MaxImageSize == 5242880 && MaxVideoSize == 15728640
  {
  }

  /** Every allowed type has an extension, and the extension maps back to the type (`image/jpg` to `image/jpeg`). */
  lemma ExtensionRoundTrip(mime: string)
    requires IsAllowedType(mime)
    ensures mime in MimeToExtension && MimeToExtension[mime] in ExtensionToMime
    ensures ExtensionToMime[MimeToExtension[mime]] == if mime == "image/jpg" then "image/jpeg" else mime
  {
  }

  /** Every type the extension table yields is an allowed type. */
  lemma ExtensionTargetsAllowed(ext: string)
    requires ext in ExtensionToMime
    ensures IsAllowedType(ExtensionToMime[ext])
  {
  }

  // ---------------------------------------------------------------- closed enumerations

  datatype SortField = CreatedAt | FileSize | OriginalName
  datatype SortOrder = Asc | Desc
  datatype FileType = Image | Video
  datatype FileTypeFilter = ImagesOnly | VideosOnly | AllTypes

  function SortFieldName(f: SortField): string {
    match f
    case CreatedAt => "created_at"
    case FileSize => "file_size"
    case OriginalName => "original_name"
  }

  function SortOrderName(o: SortOrder): string {
    match o
    case Asc => "asc"
    case Desc => "desc"
  }

  function FileTypeName(t: FileType): string {
    match t
    case Image => "image"
    case Video => "video"
  }

  function FilterName(t: FileTypeFilter): string {
    match t
    case ImagesOnly => "image"
    case VideosOnly => "video"
    case AllTypes => "all"
  }

  /** The string is one of the three sort fields (`validSortFields.includes`). */
  function ParseSortField(s: string): (r: Option<SortField>)
    ensures r.Some? <==> s in ["created_at", "file_size", "original_name"]
    ensures r.Some? ==> SortFieldName(r.value) == s
  {
    if s == "created_at" then Some(CreatedAt)
    else if s == "file_size" then Some(FileSize)
    else if s == "original_name" then Some(OriginalName)
    else None
  }

  function ParseSortOrder(s: string): (r: Option<SortOrder>)
    ensures r.Some? <==> s in ["asc", "desc"]
    ensures r.Some? ==> SortOrderName(r.value) == s
  {
    if s == "asc" then Some(Asc) else if s == "desc" then Some(Desc) else None
  }

  function ParseFilter(s: string): (r: Option<FileTypeFilter>)
    ensures r.Some? <==> s in ["image", "video", "all"]
    ensures r.Some? ==> FilterName(r.value) == s
  {
    if s == "image" then Some(ImagesOnly)
    else if s == "video" then Some(VideosOnly)
    else if s == "all" then Some(AllTypes)
    else None
  }

  /** Each enumeration's name reads back as itself. */
  lemma EnumNamesRoundTrip(f: SortField, o: SortOrder, t: FileTypeFilter)
    ensures ParseSortField(SortFieldName(f)) == Some(f)
    ensures ParseSortOrder(SortOrderName(o)) == Some(o)
    ensures ParseFilter(FilterName(t)) == Some(t)
  {
  }

  // ---------------------------------------------------------------- records and responses

  /** A row of the `files` table. */
  datatype FileRecord = FileRecord(
    id: string,
    originalName: string,
    storedPath: string,
    mimeType: string,
    fileSize: nat,
    fileType: FileType,
    width: Option<int>,
    height: Option<int>,
    duration: Option<int>,
    thumbnailPath: Option<string>,
    createdAt: string,
    updatedAt: string)

  /** The fields only the detail shape carries. */
  datatype Details = Details(
    storedPath: string,
    width: Option<int>,
    height: Option<int>,
    duration: Option<int>,
    updatedAt: string)

  /** The public view of a record; `details` is present exactly in the detail shape. */
  datatype FileResponse = FileResponse(
    id: string,
    url: string,
    thumbnailUrl: Option<string>,
    originalName: string,
    mimeType: string,
    fileSize: nat,
    fileType: FileType,
    createdAt: string,
    details: Option<Details>)

  datatype PaginationInfo = PaginationInfo(page: int, limit: int, total: nat, totalPages: int)

  /** The sanitised listing parameters. */
  datatype FilesQuery = FilesQuery(
    page: int,
    limit: int,
    sort: SortField,
    order: SortOrder,
    fileType: FileTypeFilter,
    search: Option<string>)

  /** The worker's configuration (the secrets and the public base URL). */
  datatype Config = Config(apiKey: string, adminUsername: string, adminPassword: string, cdnBaseUrl: string)

  /**
   * The outcome of one call into an external store: it returns normally, or it
   * throws an error carrying a message.
   */
  datatype Fault = Succeeds | Throws(message: string)
}
