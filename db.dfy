/**
 * The `files` table and its queries: insert, look-up by id, rename, delete,
 * the filtered, counted, sorted and windowed listing, and the projection of a
 * record onto its public response. The table is held as its rows in insertion
 * order with pairwise distinct ids, so `FindById` is its view as a map from id
 * to record.
 */
module Db {
  import opened JsString
  import opened Types
  import opened Storage
  import opened RecordOrder

  /** A record before the table stamps it: `Omit<FileRecord, 'created_at' | 'updated_at'>`. */
  datatype NewFile = NewFile(
    id: string,
    originalName: string,
    storedPath: string,
    mimeType: string,
    fileSize: nat,
    fileType: FileType,
    width: Option<int>,
    height: Option<int>,
    duration: Option<int>,
    thumbnailPath: Option<string>)

  /** The row `insertFile` writes: every given column, and both timestamps set to `now`. */
  function Stamp(f: NewFile, now: string): FileRecord {
    FileRecord(f.id, f.originalName, f.storedPath, f.mimeType, f.fileSize, f.fileType,
      f.width, f.height, f.duration, f.thumbnailPath, now, now)
  }

  /** Forgetting the timestamps gives back the record that was inserted. */
  lemma StampKeepsColumns(f: NewFile, now: string)
    ensures var r := Stamp(f, now);
      NewFile(r.id, r.originalName, r.storedPath, r.mimeType, r.fileSize, r.fileType,
        r.width, r.height, r.duration, r.thumbnailPath) == f
      && r.createdAt == now && r.updatedAt == now
  {
  }

  predicate UniqueIds(rows: seq<FileRecord>) {
    forall i, j :: 0 <= i < |rows| && 0 <= j < |rows| && rows[i].id == rows[j].id ==> i == j
  }

  predicate HasId(rows: seq<FileRecord>, id: string) {
    exists i :: 0 <= i < |rows| && rows[i].id == id
  }

  /** `SELECT * FROM files WHERE id = ?` with `.first()`. */
  function FindById(rows: seq<FileRecord>, id: string): (r: Option<FileRecord>)
    ensures r.Some? <==> HasId(rows, id)
    ensures r.Some? ==> r.value.id == id && r.value in rows
    decreases |rows|
  {
    if rows == [] then None
    else if rows[0].id == id then Some(rows[0])
    else
      var r := FindById(rows[1..], id);
      assert HasId(rows, id) ==> HasId(rows[1..], id) by {
        if HasId(rows, id) {
          var i :| 0 <= i < |rows| && rows[i].id == id;
          assert rows[1..][i - 1] == rows[i];
        }
      }
      assert HasId(rows[1..], id) ==> HasId(rows, id) by {
        if HasId(rows[1..], id) {
          var i :| 0 <= i < |rows[1..]| && rows[1..][i].id == id;
          assert rows[i + 1] == rows[1..][i];
        }
      }
      r
  }

  /** With distinct ids, looking a row's id up finds that row. */
  lemma {:induction false} FindEachRow(rows: seq<FileRecord>, i: nat)
    requires UniqueIds(rows) && i < |rows|
    ensures FindById(rows, rows[i].id) == Some(rows[i])
    decreases i
  {
    if i > 0 {
      assert rows[0].id != rows[i].id;
      var tail := rows[1..];
      assert UniqueIds(tail) by {
        forall a, b | 0 <= a < |tail| && 0 <= b < |tail| && tail[a].id == tail[b].id
          ensures a == b
        {
          assert rows[a + 1].id == rows[b + 1].id;
        }
      }
      assert tail[i - 1] == rows[i];
      FindEachRow(tail, i - 1);
    }
  }

  /** Appending a row leaves every earlier look-up as it was and makes the new id findable. */
  lemma {:induction false} FindAfterAppend(rows: seq<FileRecord>, x: FileRecord, id: string)
    ensures FindById(rows + [x], id) ==
      if FindById(rows, id).Some? then FindById(rows, id)
      else if x.id == id then Some(x) else None
    decreases |rows|
  {
    if rows == [] {
      assert rows + [x] == [x];
      assert [x][1..] == [];
    } else {
      assert (rows + [x])[0] == rows[0];
      assert (rows + [x])[1..] == rows[1..] + [x];
      FindAfterAppend(rows[1..], x, id);
    }
  }

  // ---------------------------------------------------------------- rename and delete

  /** `UPDATE files SET original_name = ?, updated_at = ? WHERE id = ?` */
  function Renamed(rows: seq<FileRecord>, id: string, name: string, now: string): (r: seq<FileRecord>)
    ensures |r| == |rows|
    ensures forall i :: 0 <= i < |rows| ==> r[i].id == rows[i].id
    decreases |rows|
  {
    if rows == [] then []
    else
      var head := if rows[0].id == id then rows[0].(originalName := name, updatedAt := now) else rows[0];
      [head] + Renamed(rows[1..], id, name, now)
  }

  /** `DELETE FROM files WHERE id = ?` */
  function WithoutId(rows: seq<FileRecord>, id: string): (r: seq<FileRecord>)
    ensures forall x :: x in r ==> x in rows && x.id != id
    ensures forall x :: x in rows && x.id != id ==> x in r
    decreases |rows|
  {
    if rows == [] then []
    else
      var rest := WithoutId(rows[1..], id);
      assert rows == [rows[0]] + rows[1..];
      if rows[0].id == id then rest else [rows[0]] + rest
  }

  lemma RenamedKeepsIds(rows: seq<FileRecord>, id: string, name: string, now: string)
    requires UniqueIds(rows)
    ensures UniqueIds(Renamed(rows, id, name, now))
  {
  }

  /**
   * A rename changes exactly the named record, and in it exactly
   * `original_name` and `updated_at`; every other look-up is unchanged.
   */
  lemma {:induction false} RenameEffect(rows: seq<FileRecord>, id: string, name: string, now: string, other: string)
    ensures FindById(Renamed(rows, id, name, now), other) ==
      if other != id then FindById(rows, other)
      else match FindById(rows, id)
        case None => None
        case Some(f) => Some(f.(originalName := name, updatedAt := now))
    decreases |rows|
  {
    if rows != [] {
      RenameEffect(rows[1..], id, name, now, other);
    }
  }

  /** Deleting keeps the ids distinct. */
  lemma {:induction false} WithoutIdKeepsIds(rows: seq<FileRecord>, id: string)
    requires UniqueIds(rows)
    ensures UniqueIds(WithoutId(rows, id))
    decreases |rows|
  {
    if rows != [] {
      var tail := rows[1..];
      UniqueTail(rows);
      WithoutIdKeepsIds(tail, id);
      var rest := WithoutId(tail, id);
      if rows[0].id != id {
        assert forall x :: x in rest ==> x in tail;
        UniqueCons(rows[0], rest);
      }
    }
  }

  /** Dropping the first row keeps the ids distinct, and no later row shares the first one's id. */
  lemma UniqueTail(rows: seq<FileRecord>)
    requires UniqueIds(rows) && rows != []
    ensures UniqueIds(rows[1..])
    ensures forall x :: x in rows[1..] ==> x.id != rows[0].id
  {
    var tail := rows[1..];
    forall a, b | 0 <= a < |tail| && 0 <= b < |tail| && tail[a].id == tail[b].id
      ensures a == b
    {
      assert rows[a + 1].id == rows[b + 1].id;
    }
    forall x | x in tail
      ensures x.id != rows[0].id
    {
      var k :| 0 <= k < |tail| && tail[k] == x;
      assert rows[k + 1] == x;
    }
  }

  /** A row whose id no other row has can be put in front. */
  lemma UniqueCons(x: FileRecord, rest: seq<FileRecord>)
    requires UniqueIds(rest) && forall y :: y in rest ==> y.id != x.id
    ensures UniqueIds([x] + rest)
  {
    var r := [x] + rest;
    forall a, b | 0 <= a < |r| && 0 <= b < |r| && r[a].id == r[b].id
      ensures a == b
    {
      if a > 0 && b > 0 {
        assert rest[a - 1].id == rest[b - 1].id;
      }
    }
  }

  /** After a delete the id is gone, every other look-up is unchanged. */
  lemma {:induction false} DeleteEffect(rows: seq<FileRecord>, id: string, other: string)
    requires UniqueIds(rows)
    ensures FindById(WithoutId(rows, id), other) == if other == id then None else FindById(rows, other)
    decreases |rows|
  {
    var r := WithoutId(rows, id);
    if other == id {
      forall i | 0 <= i < |r|
        ensures r[i].id != id
      {
        assert r[i] in r;
      }
    } else {
      WithoutIdKeepsIds(rows, id);
      match FindById(rows, other)
      case None =>
        forall i | 0 <= i < |r|
          ensures r[i].id != other
        {
          assert r[i] in r;
          var k :| 0 <= k < |rows| && rows[k] == r[i];
        }
      case Some(f) =>
        assert f in r;
        var i :| 0 <= i < |r| && r[i] == f;
        FindEachRow(r, i);
    }
  }

  /** Deleting an id that is not there changes nothing. */
  lemma {:induction false} DeleteAbsent(rows: seq<FileRecord>, id: string)
    requires !HasId(rows, id)
    ensures WithoutId(rows, id) == rows
    decreases |rows|
  {
    if rows != [] {
      assert !HasId(rows[1..], id) by {
        forall i | 0 <= i < |rows[1..]|
          ensures rows[1..][i].id != id
        {
          assert rows[1..][i] == rows[i + 1];
        }
      }
      DeleteAbsent(rows[1..], id);
      assert rows[0].id != id;
      assert rows == [rows[0]] + rows[1..];
    }
  }

  // ---------------------------------------------------------------- the table

  /** The D1 `files` table. */
  class FilesTable {
    var rows: seq<FileRecord>

    ghost predicate Valid()
      reads this
    {
      UniqueIds(rows)
    }

    constructor ()
      ensures rows == [] && Valid()
    {
      rows := [];
    }

    /** `getFileById` */
    function GetFileById(id: string): (r: Option<FileRecord>)
      reads this
      ensures r.Some? <==> HasId(rows, id)
      ensures r.Some? ==> r.value in rows && r.value.id == id
    {
      FindById(rows, id)
    }

    /** `insertFile`: appends the stamped row, or throws and changes nothing. The id is fresh. */
    method InsertFile(f: NewFile, now: string, fault: Fault) returns (outcome: Fault)
      requires Valid() && !HasId(rows, f.id)
      modifies this
      ensures Valid()
      ensures outcome == fault
      ensures rows == if fault.Succeeds? then old(rows) + [Stamp(f, now)] else old(rows)
    {
      outcome := fault;
      if fault.Succeeds? {
        rows := rows + [Stamp(f, now)];
      }
    }

    /**
     * `updateFile`: runs the `UPDATE` only when a name is given (and that
     * statement may throw), then reads the record back.
     */
    method UpdateFile(id: string, originalName: Option<string>, now: string, fault: Fault)
      returns (outcome: Fault, current: Option<FileRecord>)
      requires Valid()
      modifies this
      ensures Valid()
      ensures outcome == if originalName.Some? then fault else Succeeds
      ensures rows == if originalName.Some? && fault.Succeeds?
        then Renamed(old(rows), id, originalName.value, now) else old(rows)
      ensures current == if outcome.Succeeds? then FindById(rows, id) else None
    {
      outcome := Succeeds;
      current := None;
      if originalName.Some? {
        outcome := fault;
        if fault.Succeeds? {
          RenamedKeepsIds(rows, id, originalName.value, now);
          rows := Renamed(rows, id, originalName.value, now);
        }
      }
      if outcome.Succeeds? {
        current := FindById(rows, id);
      }
    }

    /** `deleteFile`: removes the row with this id, if any, or throws and changes nothing. */
    method DeleteFile(id: string, fault: Fault) returns (outcome: Fault)
      requires Valid()
      modifies this
      ensures Valid()
      ensures outcome == fault
      ensures rows == if fault.Succeeds? then WithoutId(old(rows), id) else old(rows)
    {
      outcome := fault;
      if fault.Succeeds? {
        WithoutIdKeepsIds(rows, id);
        rows := WithoutId(rows, id);
      }
    }
  }

  /** An insert adds one findable record stamped with `now`, and changes no other look-up. */
  lemma InsertEffect(rows: seq<FileRecord>, f: NewFile, now: string, other: string)
    requires !HasId(rows, f.id)
    ensures FindById(rows + [Stamp(f, now)], f.id) == Some(Stamp(f, now))
    ensures other != f.id ==> FindById(rows + [Stamp(f, now)], other) == FindById(rows, other)
    ensures |rows + [Stamp(f, now)]| == |rows| + 1
  {
    FindAfterAppend(rows, Stamp(f, now), f.id);
    FindAfterAppend(rows, Stamp(f, now), other);
  }

  /** A fresh id keeps the ids distinct after the insert. */
  lemma InsertKeepsIds(rows: seq<FileRecord>, x: FileRecord)
    requires UniqueIds(rows) && !HasId(rows, x.id)
    ensures UniqueIds(rows + [x])
  {
  }

  // ---------------------------------------------------------------- the listing query

  /** One entry of the `conditions` array of `getFiles`. */
  datatype Condition = FileTypeIs(fileType: FileType) | NameLike(search: string)

  /** `conditions.push(...)`: the type condition unless `all`, then the search condition if the search is non-empty. */
  function Conditions(q: FilesQuery): seq<Condition> {
    (match q.fileType
     case ImagesOnly => [FileTypeIs(Image)]
     case VideosOnly => [FileTypeIs(Video)]
     case AllTypes => [])
    + (if q.search.Some? && q.search.value != "" then [NameLike(q.search.value)] else [])
  }

  /** The meaning of one condition; `LIKE '%s%'` is read as containment. */
  predicate Holds(r: FileRecord, c: Condition) {
    match c
    case FileTypeIs(t) => r.fileType == t
    case NameLike(s) => Contains(r.originalName, s)
  }

  /** The `WHERE` clause: the conditions joined by `AND` (no conditions, no clause). */
  predicate SatisfiesAll(r: FileRecord, cs: seq<Condition>) {
    forall k :: 0 <= k < |cs| ==> Holds(r, cs[k])
  }

  /** The type predicate (always true for `all`) ANDed with the search predicate (always true without a search). */
  predicate Matches(r: FileRecord, q: FilesQuery) {
    (q.fileType == AllTypes || FilterName(q.fileType) == FileTypeName(r.fileType))
    && (q.search.None? || Contains(r.originalName, q.search.value))
  }

  /** The built `WHERE` clause selects exactly the rows satisfying both predicates. */
  lemma WhereClauseMeansMatches(r: FileRecord, q: FilesQuery)
    ensures SatisfiesAll(r, Conditions(q)) <==> Matches(r, q)
  {
    var cs := Conditions(q);
    if q.search.Some? && q.search.value == "" {
      assert q.search.value <= r.originalName[0..];
    }
    if q.search.Some? && q.search.value != "" {
      assert cs[|cs| - 1] == NameLike(q.search.value);
    }
    if q.fileType != AllTypes {
      assert cs[0].FileTypeIs?;
    }
  }

  /** The rows satisfying the conditions, in table order. */
  function Filter(rows: seq<FileRecord>, cs: seq<Condition>): (r: seq<FileRecord>)
    ensures |r| <= |rows|
    ensures forall x :: x in r ==> x in rows && SatisfiesAll(x, cs)
    ensures forall x :: x in rows && SatisfiesAll(x, cs) ==> x in r
    ensures forall x :: multiset(r)[x] == if SatisfiesAll(x, cs) then multiset(rows)[x] else 0
    decreases |rows|
  {
    if rows == [] then []
    else
      var rest := Filter(rows[1..], cs);
      assert rows == [rows[0]] + rows[1..];
      if SatisfiesAll(rows[0], cs) then [rows[0]] + rest else rest
  }

  /** The built conditions and the two predicates agree on every row. */
  lemma ConditionsMeanMatches(q: FilesQuery)
    ensures forall x :: SatisfiesAll(x, Conditions(q)) <==> Matches(x, q)
  {
    forall x ensures SatisfiesAll(x, Conditions(q)) <==> Matches(x, q) {
      WhereClauseMeansMatches(x, q);
    }
  }

  /** `SELECT COUNT(*) ... WHERE`: how many rows of the table match the query, counted row by row. */
  function CountMatching(rows: seq<FileRecord>, q: FilesQuery): nat
    decreases |rows|
  {
    if rows == [] then 0
    else (if Matches(rows[0], q) then 1 else 0) + CountMatching(rows[1..], q)
  }

  /** The selected rows are as many as the rows the count query counts. */
  lemma {:induction false} FilterCounts(rows: seq<FileRecord>, q: FilesQuery)
    ensures |Filter(rows, Conditions(q))| == CountMatching(rows, q)
    decreases |rows|
  {
    if rows != [] {
      FilterCounts(rows[1..], q);
      WhereClauseMeansMatches(rows[0], q);
    }
  }

  /** `Math.ceil(total / limit)` for a positive limit. */
  function CeilDiv(total: nat, limit: nat): nat
    requires limit >= 1
  {
    (total + limit - 1) / limit
  }

  /** The ceiling is the least page count whose pages hold every result; it is 0 exactly when there are none. */
  lemma CeilDivIsCeiling(total: nat, limit: nat)
    requires limit >= 1
    ensures CeilDiv(total, limit) * limit >= total
    ensures CeilDiv(total, limit) >= 1 ==> (CeilDiv(total, limit) - 1) * limit < total
    ensures CeilDiv(total, limit) == 0 <==> total == 0
  {
    var n := total + limit - 1;
    var q, r := n / limit, n % limit;
    assert n == q * limit + r && 0 <= r < limit;
    assert q * limit >= total;
    assert (q - 1) * limit == q * limit - limit;
  }

  /** `LIMIT limit OFFSET offset`: the run starting at `offset`, at most `limit` long. */
  function Window(s: seq<FileRecord>, offset: nat, limit: nat): (w: seq<FileRecord>)
    ensures |w| <= limit
    ensures offset <= |s| ==> |w| == if offset + limit <= |s| then limit else |s| - offset
    ensures offset >= |s| ==> w == []
    ensures forall k :: 0 <= k < |w| ==> offset + k < |s| && w[k] == s[offset + k]
  {
    var lo := if offset < |s| then offset else |s|;
    var hi := if offset + limit < |s| then offset + limit else |s|;
    s[lo..hi]
  }

  /** `(page - 1) * limit`: where the requested page starts. */
  function PageOffset(page: int, limit: int): nat
    requires page >= 1 && limit >= 1
  {
    var before: nat := page - 1;
    var size: nat := limit;
    before * size
  }

  /** What `getFiles` returns. */
  datatype FilesPage = FilesPage(files: seq<FileRecord>, pagination: PaginationInfo)

  /** The records matched by the query's conditions, in the query's order. */
  function Results(rows: seq<FileRecord>, q: FilesQuery): (s: seq<FileRecord>)
    ensures Sorted(s, q.sort, q.order)
    ensures multiset(s) == multiset(Filter(rows, Conditions(q)))
    ensures forall x :: multiset(s)[x] == if Matches(x, q) then multiset(rows)[x] else 0
  {
    ConditionsMeanMatches(q);
    SortRecords(Filter(rows, Conditions(q)), q.sort, q.order)
  }

  /**
   * `getFiles` on a sanitised query: the count of matching records, and the
   * page-th window of `limit` of them in the requested order.
   */
  function GetFiles(rows: seq<FileRecord>, q: FilesQuery): (p: FilesPage)
    requires q.page >= 1 && q.limit >= 1
    ensures p.pagination.page == q.page && p.pagination.limit == q.limit
    ensures p.pagination.total == |Results(rows, q)| == CountMatching(rows, q)
    ensures p.pagination.totalPages == CeilDiv(p.pagination.total, q.limit)
    ensures |p.files| <= q.limit
    ensures forall r :: r in p.files ==> r in rows && Matches(r, q)
    ensures Sorted(p.files, q.sort, q.order)
  {
    var all := Results(rows, q);
    ResultsMatch(rows, q);
    FilterCounts(rows, q);
    assert |all| == |multiset(all)| == |Filter(rows, Conditions(q))|;
    var offset := PageOffset(q.page, q.limit);
    var files := Window(all, offset, q.limit);
    WindowWithin(all, offset, q.limit, q.sort, q.order);
    FilesPage(files, PaginationInfo(q.page, q.limit, |all|, CeilDiv(|all|, q.limit)))
  }

  /** In a table with distinct ids every row occurs once. */
  lemma {:induction false} UniqueRowsOnce(rows: seq<FileRecord>, x: FileRecord)
    requires UniqueIds(rows)
    ensures multiset(rows)[x] == if x in rows then 1 else 0
    decreases |rows|
  {
    if rows != [] {
      UniqueTail(rows);
      UniqueRowsOnce(rows[1..], x);
      assert rows == [rows[0]] + rows[1..];
    }
  }

  /** Over the files table each matching record is a result exactly once, and nothing else is. */
  lemma ResultsOnce(rows: seq<FileRecord>, q: FilesQuery, x: FileRecord)
    requires UniqueIds(rows)
    ensures multiset(Results(rows, q))[x] == if x in rows && Matches(x, q) then 1 else 0
  {
    UniqueRowsOnce(rows, x);
  }

  /** The page is the run of results starting at `(page - 1) * limit`. */
  lemma PageIsWindow(rows: seq<FileRecord>, q: FilesQuery, k: nat)
    requires q.page >= 1 && q.limit >= 1
    requires k < |GetFiles(rows, q).files|
    ensures PageOffset(q.page, q.limit) + k < |Results(rows, q)|
    ensures GetFiles(rows, q).files[k] == Results(rows, q)[PageOffset(q.page, q.limit) + k]
  {
  }

  /** Every result is a matching row of the table. */
  lemma ResultsMatch(rows: seq<FileRecord>, q: FilesQuery)
    ensures forall r :: r in Results(rows, q) ==> r in rows && Matches(r, q)
  {
    var all := Results(rows, q);
    forall r | r in all
      ensures r in rows && Matches(r, q)
    {
      assert r in multiset(all);
      assert r in multiset(Filter(rows, Conditions(q)));
      WhereClauseMeansMatches(r, q);
    }
  }

  /** A window of an ordered sequence is ordered and holds only its elements. */
  lemma WindowWithin(s: seq<FileRecord>, offset: nat, limit: nat, field: SortField, order: SortOrder)
    requires Sorted(s, field, order)
    ensures forall r :: r in Window(s, offset, limit) ==> r in s
    ensures Sorted(Window(s, offset, limit), field, order)
  {
    var w := Window(s, offset, limit);
    forall i, j | 0 <= i < j < |w|
      ensures NotAfter(w[i], w[j], field, order)
    {
      assert w[i] == s[offset + i] && w[j] == s[offset + j];
    }
  }

  /** The total does not depend on which page is asked for, nor on its size. */
  lemma TotalIgnoresPaging(rows: seq<FileRecord>, q: FilesQuery, page: int, limit: int)
    requires q.page >= 1 && q.limit >= 1 && page >= 1 && limit >= 1
    ensures GetFiles(rows, q.(page := page, limit := limit)).pagination.total == GetFiles(rows, q).pagination.total
  {
    assert Conditions(q.(page := page, limit := limit)) == Conditions(q);
  }

  /**
   * Every matching record is on the page its position says: the result at
   * `(page - 1) * limit + slot` is entry `slot` of that page, and that page is
   * within `total_pages`. `PageArithmetic` gives the page and slot of any
   * position `k`: `k / limit + 1` and `k % limit`.
   */
  lemma PagesCoverResults(rows: seq<FileRecord>, q: FilesQuery, slot: nat)
    requires q.page >= 1 && q.limit >= 1 && slot < q.limit
    requires PageOffset(q.page, q.limit) + slot < |Results(rows, q)|
    ensures var p := GetFiles(rows, q);
      q.page <= p.pagination.totalPages
      && slot < |p.files| && p.files[slot] == Results(rows, q)[PageOffset(q.page, q.limit) + slot]
  {
    PageWithinCount(q.page, q.limit, |Results(rows, q)|);
  }

  /** A page that starts before the last result is within `total_pages`. */
  lemma PageWithinCount(page: int, limit: int, total: nat)
    requires page >= 1 && limit >= 1 && PageOffset(page, limit) < total
    ensures page <= CeilDiv(total, limit)
  {
    CeilDivIsCeiling(total, limit);
    assert PageOffset(page, limit) == (page - 1) * limit;
    MulCancel(page - 1, CeilDiv(total, limit), limit);
  }

  lemma MulCancel(a: int, b: int, l: int)
    requires l >= 1 && a * l < b * l
    ensures a < b
  {
    assert (b - a) * l == b * l - a * l;
  }

  /** Position `k` lies at `k % limit` of the window starting at `(k / limit) * limit`, on a page within the count. */
  lemma PageArithmetic(k: nat, limit: nat, total: nat)
    requires limit >= 1 && k < total
    ensures (k / limit) * limit + k % limit == k && k % limit < limit
    ensures k / limit + 1 <= CeilDiv(total, limit)
    ensures PageOffset(k / limit + 1, limit) + k % limit == k
  {
    var a := k / limit;
    assert a * limit + k % limit == k;
    assert PageOffset(a + 1, limit) == a * limit;
    assert PageOffset(a + 1, limit) < total;
    PageWithinCount(a + 1, limit, total);
  }

  // ---------------------------------------------------------------- the response projection

  /** A thumbnail path JavaScript treats as present (neither null nor empty). */
  predicate HasThumbnail(f: FileRecord) {
    f.thumbnailPath.Some? && f.thumbnailPath.value != ""
  }

  /** `fileRecordToResponse`: the summary shape, with the detail fields added when `includeDetails` holds. */
  function ToResponse(f: FileRecord, cdnBaseUrl: string, includeDetails: bool): (r: FileResponse)
    ensures r.id == f.id && r.url == FileUrl(cdnBaseUrl, f.storedPath)
    ensures r.thumbnailUrl.Some? <==> HasThumbnail(f)
    ensures r.thumbnailUrl.Some? ==> r.thumbnailUrl.value == FileUrl(cdnBaseUrl, f.thumbnailPath.value)
    ensures r.details.Some? <==> includeDetails
  {
    FileResponse(
      f.id,
      FileUrl(cdnBaseUrl, f.storedPath),
      if HasThumbnail(f) then Some(FileUrl(cdnBaseUrl, f.thumbnailPath.value)) else None,
      f.originalName,
      f.mimeType,
      f.fileSize,
      f.fileType,
      f.createdAt,
      if includeDetails then Some(Details(f.storedPath, f.width, f.height, f.duration, f.updatedAt)) else None)
  }

  /** The summary is the detail shape with its detail fields dropped. */
  lemma SummaryForgetsDetails(f: FileRecord, cdnBaseUrl: string)
    ensures ToResponse(f, cdnBaseUrl, false) == ToResponse(f, cdnBaseUrl, true).(details := None)
  {
  }

  /** The thumbnail column as the response sees it: an empty path counts as none. */
  function ThumbnailSeen(f: FileRecord): Option<string> {
    if HasThumbnail(f) then f.thumbnailPath else None
  }

  lemma UrlInjective(base: string, p1: string, p2: string)
    requires FileUrl(base, p1) == FileUrl(base, p2)
    ensures p1 == p2
  {
    var n := |base| + 1;
    assert FileUrl(base, p1)[n..] == p1;
    assert FileUrl(base, p2)[n..] == p2;
  }

  /**
   * The detail response loses nothing but the difference between a null and
   * an empty thumbnail path: two records with the same detail response agree
   * on every other column.
   */
  lemma DetailDeterminesRecord(f1: FileRecord, f2: FileRecord, cdnBaseUrl: string)
    requires ToResponse(f1, cdnBaseUrl, true) == ToResponse(f2, cdnBaseUrl, true)
    ensures f1.(thumbnailPath := ThumbnailSeen(f1)) == f2.(thumbnailPath := ThumbnailSeen(f2))
  {
    UrlInjective(cdnBaseUrl, f1.storedPath, f2.storedPath);
    if HasThumbnail(f1) {
      UrlInjective(cdnBaseUrl, f1.thumbnailPath.value, f2.thumbnailPath.value);
    }
  }
}
