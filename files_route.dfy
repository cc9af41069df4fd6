/**
 * `GET /api/files`: the sanitising of the untrusted query string into a
 * `FilesQuery`, and the listing response with every record in its summary
 * shape.
 */
module FilesRoute {
  import opened JsString
  import opened Types
  import opened Db
  import opened Http

  /** `URLSearchParams.get`: the value of a parameter when it is present. */
  type SearchParams = map<string, string>

  /** `searchParams.get(name) || fallback`: an absent or empty parameter reads as the fallback. */
  function OrDefault(params: SearchParams, name: string, fallback: string): string {
    if name in params && params[name] != "" then params[name] else fallback
  }

  /** `parseInt(get('page') || '1', 10)`, then 1 for `NaN` or anything below 1. */
  function ParsePage(params: SearchParams): int {
    match ParseInt(OrDefault(params, "page", "1"))
    case Some(n) => if n < 1 then 1 else n
    case None => 1
  }

  /** `parseInt(get('limit') || '20', 10)`, then 20 for `NaN` or anything below 1, then at most 100. */
  function ParseLimit(params: SearchParams): int {
    var limit := match ParseInt(OrDefault(params, "limit", "20"))
      case Some(n) => if n < 1 then 20 else n
      case None => 20;
    if limit > 100 then 100 else limit
  }

  /** `sort`, falling back to `created_at`. */
  function ParseSort(params: SearchParams): SortField {
    match ParseSortField(OrDefault(params, "sort", "created_at")) case Some(f) => f case None => CreatedAt
  }

  /** `order`, falling back to `desc`. */
  function ParseOrder(params: SearchParams): SortOrder {
    match ParseSortOrder(OrDefault(params, "order", "desc")) case Some(o) => o case None => Desc
  }

  /** `type`, falling back to `all`. */
  function ParseType(params: SearchParams): FileTypeFilter {
    match ParseFilter(OrDefault(params, "type", "all")) case Some(t) => t case None => AllTypes
  }

  /** `get('search') || undefined`: an empty search is no search. */
  function ParseSearch(params: SearchParams): Option<string> {
    if "search" in params && params["search"] != "" then Some(params["search"]) else None
  }

  /** A query `parseQueryParams` can produce. */
  predicate ValidQuery(q: FilesQuery) {
    q.page >= 1 && 1 <= q.limit <= 100 && (q.search.Some? ==> q.search.value != "")
  }

  /**
   * `parseQueryParams`: every parameter falls back to its default when it is
   * missing or not one of the accepted values; nothing is ever rejected.
   */
  function ParseQueryParams(params: SearchParams): (q: FilesQuery)
    ensures ValidQuery(q)
  {
    FilesQuery(ParsePage(params), ParseLimit(params), ParseSort(params), ParseOrder(params),
      ParseType(params), ParseSearch(params))
  }

  /** The written defaults parse as themselves. */
  lemma DefaultLiterals()
    ensures ParseInt("1") == Some(1) && ParseInt("20") == Some(20)
  {
    assert Decimal(1) == "1";
    assert Decimal(20) == "20" by {
      assert ToRadix(2, 10) == [RadixDigit(2)];
      assert ToRadix(20, 10) == ToRadix(2, 10) + [RadixDigit(0)];
    }
    ParseIntOfDecimal(1);
    ParseIntOfDecimal(20);
  }

  /** A query string without any of the six parameters asks for the defaults. */
  lemma MissingMeansDefault(params: SearchParams)
    requires "page" !in params && "limit" !in params && "sort" !in params
    requires "order" !in params && "type" !in params && "search" !in params
    ensures ParseQueryParams(params) == FilesQuery(1, 20, CreatedAt, Desc, AllTypes, None)
  {
    assert ParsePage(params) == 1 by {
      DefaultLiterals();
      assert OrDefault(params, "page", "1") == "1";
    }
    assert ParseLimit(params) == 20 by {
      DefaultLiterals();
      assert OrDefault(params, "limit", "20") == "20";
    }
    assert ParseSort(params) == CreatedAt && ParseOrder(params) == Desc && ParseType(params) == AllTypes by {
      EnumNamesRoundTrip(CreatedAt, Desc, AllTypes);
    }
  }

  /** A page written in decimal is taken as it is when positive, and becomes 1 otherwise. */
  lemma PageRule(params: SearchParams, n: nat, trailing: string)
    requires "page" in params && params["page"] == Decimal(n) + trailing
    requires trailing == [] || !IsDigit(trailing[0])
    ensures ParseQueryParams(params).page == if n == 0 then 1 else n
  {
    ParseIntDecimal(n, trailing);
  }

  /**
   * The page and limit rules over every query string: a missing, empty,
   * non-numeric or non-positive page is 1 and any other page is kept; a
   * missing, empty, non-numeric or non-positive limit is 20, and any other
   * limit is kept up to 100 and capped there.
   */
  lemma PageAndLimitFallbacks(params: SearchParams)
    ensures var q := ParseQueryParams(params);
      var v := if "page" in params then params["page"] else "";
      ((v == "" || ParseInt(v).None? || ParseInt(v).value < 1) ==> q.page == 1)
      && (v != "" && ParseInt(v).Some? && ParseInt(v).value >= 1 ==> q.page == ParseInt(v).value)
    ensures var q := ParseQueryParams(params);
      var w := if "limit" in params then params["limit"] else "";
      ((w == "" || ParseInt(w).None? || ParseInt(w).value < 1) ==> q.limit == 20)
      && (w != "" && ParseInt(w).Some? && ParseInt(w).value >= 1 ==>
            q.limit == if ParseInt(w).value > 100 then 100 else ParseInt(w).value)
  {
    DefaultLiterals();
  }

  /** A non-numeric page becomes 1. */
  lemma PageNotANumber(params: SearchParams)
    requires "page" in params && params["page"] != "" && ParseInt(params["page"]).None?
    ensures ParseQueryParams(params).page == 1
  {
  }

  /** A limit written in decimal: 0 becomes 20 (not 1), 1 to 100 stay, anything above becomes 100. */
  lemma LimitRule(params: SearchParams, n: nat, trailing: string)
    requires "limit" in params && params["limit"] == Decimal(n) + trailing
    requires trailing == [] || !IsDigit(trailing[0])
    ensures ParseQueryParams(params).limit == if n == 0 then 20 else if n > 100 then 100 else n
  {
    ParseIntDecimal(n, trailing);
  }

  /** A negative limit (a minus sign and then digits) also becomes 20. */
  lemma NegativeLimit(params: SearchParams, digits: string)
    requires "limit" in params && params["limit"] == "-" + digits && LeadingDigits(digits).Some?
    ensures ParseQueryParams(params).limit == 20
  {
    ParseIntMinus(digits);
  }

  /** An unknown sort, order or type falls back to `created_at`, `desc` and `all`. */
  lemma UnknownEnumsFallBack(params: SearchParams)
    requires "sort" in params && params["sort"] !in ["created_at", "file_size", "original_name"]
    requires "order" in params && params["order"] !in ["asc", "desc"]
    requires "type" in params && params["type"] !in ["image", "video", "all"]
    ensures var q := ParseQueryParams(params);
      q.sort == CreatedAt && q.order == Desc && q.fileType == AllTypes
  {
  }

  /** The query string that asks for `q` exactly. */
  function Render(q: FilesQuery): SearchParams {
    var base := map[
      "page" := Decimal(if q.page < 0 then 0 else q.page),
      "limit" := Decimal(if q.limit < 0 then 0 else q.limit),
      "sort" := SortFieldName(q.sort),
      "order" := SortOrderName(q.order),
      "type" := FilterName(q.fileType)];
    if q.search.Some? then base["search" := q.search.value] else base
  }

  /** Sanitising is the identity on values that are already valid: `Render` is undone by `ParseQueryParams`. */
  lemma ParseRendered(q: FilesQuery)
    requires ValidQuery(q)
    ensures ParseQueryParams(Render(q)) == q
  {
    RenderedNumbers(q);
    RenderedChoices(q);
  }

  lemma RenderedChoices(q: FilesQuery)
    requires ValidQuery(q)
    ensures var p := Render(q);
      ParseSort(p) == q.sort && ParseOrder(p) == q.order && ParseType(p) == q.fileType
      && ParseSearch(p) == q.search
  {
    var p := Render(q);
    EnumNamesRoundTrip(q.sort, q.order, q.fileType);
    assert OrDefault(p, "sort", "created_at") == SortFieldName(q.sort);
    assert OrDefault(p, "order", "desc") == SortOrderName(q.order);
    assert OrDefault(p, "type", "all") == FilterName(q.fileType);
  }

  lemma RenderedNumbers(q: FilesQuery)
    requires ValidQuery(q)
    ensures ParsePage(Render(q)) == q.page && ParseLimit(Render(q)) == q.limit
  {
    var p := Render(q);
    assert p["page"] == Decimal(q.page) && p["limit"] == Decimal(q.limit);
    ParsedNumber(p, "page", "1", q.page);
    ParsedNumber(p, "limit", "20", q.limit);
  }

  lemma ParsedNumber(p: SearchParams, name: string, fallback: string, n: nat)
    requires name in p && p[name] == Decimal(n)
    ensures ParseInt(OrDefault(p, name, fallback)) == Some(n)
  {
    ParseIntOfDecimal(n);
  }

  /** Sanitising twice is sanitising once. */
  lemma ParseIdempotent(params: SearchParams)
    ensures ParseQueryParams(Render(ParseQueryParams(params))) == ParseQueryParams(params)
  {
    ParseRendered(ParseQueryParams(params));
  }

  /** `files.map(file => fileRecordToResponse(file, base))`: every record in its summary shape. */
  function Summaries(files: seq<FileRecord>, cdnBaseUrl: string): (r: seq<FileResponse>)
    ensures |r| == |files|
    ensures forall i :: 0 <= i < |files| ==> r[i] == ToResponse(files[i], cdnBaseUrl, false)
  {
    seq(|files|, i requires 0 <= i < |files| => ToResponse(files[i], cdnBaseUrl, false))
  }

  /** `handleGetFiles`: a 200 listing of the requested page, in order, with the pagination block. */
  function HandleGetFiles(rows: seq<FileRecord>, params: SearchParams, cdnBaseUrl: string): (r: Response)
    ensures r.status == 200 && r.body.ListBody?
    ensures var page := GetFiles(rows, ParseQueryParams(params));
      r.body.files == Summaries(page.files, cdnBaseUrl) && r.body.pagination == page.pagination
  {
    var page := GetFiles(rows, ParseQueryParams(params));
    Response(200, ListBody(Summaries(page.files, cdnBaseUrl), page.pagination))
  }

  /** No listing entry carries the detail fields, and the listing holds at most `limit` entries. */
  lemma ListingIsSummaries(rows: seq<FileRecord>, params: SearchParams, cdnBaseUrl: string)
    ensures var r := HandleGetFiles(rows, params, cdnBaseUrl);
      |r.body.files| <= ParseQueryParams(params).limit <= 100
      && forall i :: 0 <= i < |r.body.files| ==> r.body.files[i].details.None?
  {
  }
}
