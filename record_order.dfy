/**
 * The order `ORDER BY <field> ASC|DESC` puts rows in: text columns compare
 * code point by code point, `file_size` numerically, and `DESC` turns the
 * comparison round. Rows with equal keys may come in either order; the model
 * fixes one such order and proves only what holds for every one.
 */
module RecordOrder {
  import opened JsString
  import opened Types

  /** Lexicographic order on strings: the binary collation of a text column. */
  predicate StrLess(a: string, b: string)
    decreases |a|
  {
    if a == [] then b != []
    else if b == [] then false
    else if a[0] != b[0] then a[0] < b[0]
    else StrLess(a[1..], b[1..])
  }

  lemma {:induction false} StrLessIrreflexive(a: string)
    ensures !StrLess(a, a)
    decreases |a|
  {
    if a != [] {
      StrLessIrreflexive(a[1..]);
    }
  }

  lemma {:induction false} StrLessTransitive(a: string, b: string, c: string)
    requires StrLess(a, b) && StrLess(b, c)
    ensures StrLess(a, c)
    decreases |a|
  {
    if a != [] && a[0] == b[0] && b[0] == c[0] {
      StrLessTransitive(a[1..], b[1..], c[1..]);
    }
  }

  lemma {:induction false} StrLessTotal(a: string, b: string)
    ensures a == b || StrLess(a, b) || StrLess(b, a)
    decreases |a|
  {
    if a != [] && b != [] && a[0] == b[0] {
      StrLessTotal(a[1..], b[1..]);
      if a[1..] == b[1..] {
        assert a == [a[0]] + a[1..] && b == [b[0]] + b[1..];
      }
    }
  }

  /** The strict comparison on one sort key, ascending. */
  predicate KeyLess(a: FileRecord, b: FileRecord, field: SortField) {
    match field
    case CreatedAt => StrLess(a.createdAt, b.createdAt)
    case FileSize => a.fileSize < b.fileSize
    case OriginalName => StrLess(a.originalName, b.originalName)
  }

  /** `a` must come strictly before `b` in the requested direction. */
  predicate Before(a: FileRecord, b: FileRecord, field: SortField, order: SortOrder) {
    if order == Asc then KeyLess(a, b, field) else KeyLess(b, a, field)
  }

  /** `a` may come before `b`: `b` is not strictly before `a`. */
  predicate NotAfter(a: FileRecord, b: FileRecord, field: SortField, order: SortOrder) {
    !Before(b, a, field, order)
  }

  /** Any two rows can be placed one way round or the other. */
  lemma NotAfterTotal(a: FileRecord, b: FileRecord, field: SortField, order: SortOrder)
    ensures NotAfter(a, b, field, order) || NotAfter(b, a, field, order)
  {
    match field
    case CreatedAt =>
      if StrLess(a.createdAt, b.createdAt) && StrLess(b.createdAt, a.createdAt) {
        StrLessTransitive(a.createdAt, b.createdAt, a.createdAt);
        StrLessIrreflexive(a.createdAt);
      }
    case FileSize =>
    case OriginalName =>
      if StrLess(a.originalName, b.originalName) && StrLess(b.originalName, a.originalName) {
        StrLessTransitive(a.originalName, b.originalName, a.originalName);
        StrLessIrreflexive(a.originalName);
      }
  }

  lemma StrNotLessTransitive(a: string, b: string, c: string)
    requires !StrLess(b, a) && !StrLess(c, b)
    ensures !StrLess(c, a)
  {
    StrLessTotal(a, b);
    StrLessTotal(b, c);
    if a != b && b != c {
      StrLessTransitive(a, b, c);
      if StrLess(c, a) {
        StrLessTransitive(c, a, c);
        StrLessIrreflexive(c);
      }
    }
  }

  lemma NotAfterTransitive(a: FileRecord, b: FileRecord, c: FileRecord, field: SortField, order: SortOrder)
    requires NotAfter(a, b, field, order) && NotAfter(b, c, field, order)
    ensures NotAfter(a, c, field, order)
  {
    match field
    case CreatedAt =>
      if order == Asc {
        StrNotLessTransitive(a.createdAt, b.createdAt, c.createdAt);
      } else {
        StrNotLessTransitive(c.createdAt, b.createdAt, a.createdAt);
      }
    case FileSize =>
    case OriginalName =>
      if order == Asc {
        StrNotLessTransitive(a.originalName, b.originalName, c.originalName);
      } else {
        StrNotLessTransitive(c.originalName, b.originalName, a.originalName);
      }
  }

  predicate Sorted(s: seq<FileRecord>, field: SortField, order: SortOrder) {
    forall i, j :: 0 <= i < j < |s| ==> NotAfter(s[i], s[j], field, order)
  }

  /** Places `x` into an already ordered sequence. */
  function Insert(x: FileRecord, s: seq<FileRecord>, field: SortField, order: SortOrder): (r: seq<FileRecord>)
    requires Sorted(s, field, order)
    ensures multiset(r) == multiset(s) + multiset{x}
    ensures Sorted(r, field, order)
    decreases |s|
  {
    if s == [] then [x]
    else if NotAfter(x, s[0], field, order) then
      InsertFirst(x, s, field, order);
      [x] + s
    else
      NotAfterTotal(x, s[0], field, order);
      var rest := Insert(x, s[1..], field, order);
      assert s == [s[0]] + s[1..];
      InsertBehind(s[0], x, s[1..], rest, field, order);
      [s[0]] + rest
  }

  lemma InsertFirst(x: FileRecord, s: seq<FileRecord>, field: SortField, order: SortOrder)
    requires s != [] && Sorted(s, field, order) && NotAfter(x, s[0], field, order)
    ensures Sorted([x] + s, field, order)
  {
    var r := [x] + s;
    forall i, j | 0 <= i < j < |r|
      ensures NotAfter(r[i], r[j], field, order)
    {
      if i == 0 && j > 1 {
        NotAfterTransitive(x, s[0], s[j - 1], field, order);
      }
    }
  }

  lemma InsertBehind(h: FileRecord, x: FileRecord, s: seq<FileRecord>, rest: seq<FileRecord>, field: SortField, order: SortOrder)
    requires Sorted([h] + s, field, order) && NotAfter(h, x, field, order)
    requires multiset(rest) == multiset(s) + multiset{x} && Sorted(rest, field, order)
    ensures Sorted([h] + rest, field, order)
  {
    var r := [h] + rest;
    forall i, j | 0 <= i < j < |r|
      ensures NotAfter(r[i], r[j], field, order)
    {
      if i == 0 {
        var y := rest[j - 1];
        assert y in multiset(rest);
        if y != x {
          assert y in multiset(s);
          var k :| 0 <= k < |s| && s[k] == y;
          assert ([h] + s)[0] == h && ([h] + s)[k + 1] == y;
          assert NotAfter(h, y, field, order);
        } else {
          assert NotAfter(h, y, field, order);
        }
        assert r[i] == h && r[j] == y;
      }
    }
  }

  /** The rows in `ORDER BY field order` order, keeping every row exactly once. */
  function SortRecords(s: seq<FileRecord>, field: SortField, order: SortOrder): (r: seq<FileRecord>)
    ensures multiset(r) == multiset(s)
    ensures Sorted(r, field, order)
    decreases |s|
  {
    if s == [] then []
    else
      assert s == [s[0]] + s[1..];
      Insert(s[0], SortRecords(s[1..], field, order), field, order)
  }
}
