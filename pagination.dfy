/**
 * The panel's pagination bar: the page-number window with its ellipses, and
 * the four stepping buttons with the pages they go to and when they are
 * disabled.
 */
module Pagination {
  import opened JsString

  /** An entry of the bar: a page button, or a `'...'` marker. */
  datatype PageItem = PageNumber(n: int) | Ellipsis

  const ShowPages: int := 5

  function Max(a: int, b: int): int { if a < b then b else a }
  function Min(a: int, b: int): int { if a < b then a else b }

  /** `start` after the window has been pulled back to hold `showPages` numbers where it can. */
  function WindowStart(page: int, total: int): int {
    var start := Max(1, page - ShowPages / 2);
    var end := Min(total, start + ShowPages - 1);
    if end - start + 1 < ShowPages then Max(1, end - ShowPages + 1) else start
  }

  /** `end`, computed once from the first `start`. */
  function WindowEnd(page: int, total: int): int {
    Min(total, Max(1, page - ShowPages / 2) + ShowPages - 1)
  }

  /** The page buttons `a`, `a + 1`, ..., `b`. */
  function Range(a: int, b: int): (r: seq<PageItem>)
    ensures |r| == if b < a then 0 else b - a + 1
    ensures forall i :: 0 <= i < |r| ==> r[i] == PageNumber(a + i)
    decreases b - a
  {
    if b < a then [] else Range(a, b - 1) + [PageNumber(b)]
  }

  /** Page 1, and an ellipsis when a gap follows it, before a window that starts later. */
  function Leading(start: int): seq<PageItem> {
    if start > 1 then [PageNumber(1)] + (if start > 2 then [Ellipsis] else []) else []
  }

  /** An ellipsis when a gap precedes it, and the last page, after a window that ends earlier. */
  function Trailing(end: int, total: int): seq<PageItem> {
    if end < total then (if end < total - 1 then [Ellipsis] else []) + [PageNumber(total)] else []
  }

  /** What `getPageNumbers` returns. */
  function PageNumbers(page: int, total: int): seq<PageItem> {
    var start, end := WindowStart(page, total), WindowEnd(page, total);
    Leading(start) + Range(start, end) + Trailing(end, total)
  }

  /** `getPageNumbers`: the leading entries, the window filled by a loop, the trailing entries. */
  method GetPageNumbers(page: int, totalPages: int) returns (pages: seq<PageItem>)
    ensures pages == PageNumbers(page, totalPages)
  {
    pages := [];
    var showPages := 5;
    var halfShow := showPages / 2;
    var start := Max(1, page - halfShow);
    var end := Min(totalPages, start + showPages - 1);
    if end - start + 1 < showPages {
      start := Max(1, end - showPages + 1);
    }
    assert start == WindowStart(page, totalPages) && end == WindowEnd(page, totalPages);
    if start > 1 {
      pages := pages + [PageNumber(1)];
      if start > 2 {
        pages := pages + [Ellipsis];
      }
    }
    ghost var lead := pages;
    assert lead == Leading(start);
    pages := AppendWindow(pages, start, end);
    ghost var window := pages;
    if end < totalPages {
      if end < totalPages - 1 {
        pages := pages + [Ellipsis];
      }
      pages := pages + [PageNumber(totalPages)];
    }
    assert pages == window + Trailing(end, totalPages);
    PageNumbersParts(page, totalPages, start, end);
  }

  /** The loop of `getPageNumbers`: pushes the buttons `start` to `end` in turn. */
  method AppendWindow(pages0: seq<PageItem>, start: int, end: int) returns (pages: seq<PageItem>)
    ensures pages == pages0 + Range(start, end)
  {
    pages := pages0;
    var i := start;
    while i <= end
      invariant start <= i && (i <= end + 1 || i == start)
      invariant pages == pages0 + Range(start, i - 1)
    {
      ExtendWindow(pages0, pages, start, i);
      pages := pages + [PageNumber(i)];
      i := i + 1;
    }
  }

  lemma PageNumbersParts(page: int, total: int, start: int, end: int)
    requires start == WindowStart(page, total) && end == WindowEnd(page, total)
    ensures PageNumbers(page, total) == Leading(start) + Range(start, end) + Trailing(end, total)
  {
  }

  lemma ExtendWindow(lead: seq<PageItem>, pages: seq<PageItem>, start: int, i: int)
    requires start <= i && pages == lead + Range(start, i - 1)
    ensures pages + [PageNumber(i)] == lead + Range(start, i)
  {
    assert Range(start, i) == Range(start, i - 1) + [PageNumber(i)];
  }

  // ---------------------------------------------------------------- the window

  /**
   * For a page within range the window lies within `1..total`, holds the
   * page, and holds `min(5, total)` numbers.
   */
  lemma WindowShape(page: int, total: int)
    requires 1 <= page <= total
    ensures var start, end := WindowStart(page, total), WindowEnd(page, total);
      1 <= start <= page <= end <= total && end - start + 1 == Min(ShowPages, total)
  {
  }

  /** Where each part of the bar sits: page 1 and its gap, the window, the gap and the last page. */
  lemma Layout(page: int, total: int)
    requires 1 <= page <= total
    ensures var start, end := WindowStart(page, total), WindowEnd(page, total);
      var items := PageNumbers(page, total);
      var lo := |Leading(start)|;
      var hi := lo + end - start + 1;
      hi <= |items| && |items| == hi + |Trailing(end, total)|
      && (forall k | lo <= k < hi :: items[k] == PageNumber(start + k - lo))
      && (lo == 0 <==> start == 1) && (lo == 2 <==> start > 2) && (lo == 1 <==> start == 2)
      && (lo > 0 ==> items[0] == PageNumber(1)) && (lo == 2 ==> items[1] == Ellipsis)
      && (hi == |items| <==> end == total) && (|items| - hi == 2 <==> end < total - 1)
      && (hi < |items| ==> items[|items| - 1] == PageNumber(total))
      && (|items| - hi == 2 ==> items[hi] == Ellipsis)
  {
    WindowShape(page, total);
    var start, end := WindowStart(page, total), WindowEnd(page, total);
    var l, r, t := Leading(start), Range(start, end), Trailing(end, total);
    var items := PageNumbers(page, total);
    assert items == l + r + t;
    forall k | |l| <= k < |l| + |r|
      ensures items[k] == PageNumber(start + k - |l|)
    {
      assert items[k] == r[k - |l|];
    }
    if |t| > 0 {
      assert items[|items| - 1] == t[|t| - 1];
      if |t| == 2 {
        assert items[|l| + |r|] == t[0];
      }
    }
  }

  // ---------------------------------------------------------------- the entries

  /** The bar starts at page 1, ends at the last page, shows the current page, and has at most nine entries. */
  lemma Ends(page: int, total: int)
    requires 1 <= page <= total
    ensures var items := PageNumbers(page, total);
      |items| <= 9 && items[0] == PageNumber(1) && items[|items| - 1] == PageNumber(total)
      && PageNumber(page) in items
  {
    Layout(page, total);
    var start := WindowStart(page, total);
    var items := PageNumbers(page, total);
    var lo := |Leading(start)|;
    assert items[lo + page - start] == PageNumber(page);
  }

  /** The pages shown are exactly 1, the last page, and the window. */
  lemma ShownPages(page: int, total: int, n: int)
    requires 1 <= page <= total
    ensures PageNumber(n) in PageNumbers(page, total) <==>
      n == 1 || n == total || WindowStart(page, total) <= n <= WindowEnd(page, total)
  {
    Layout(page, total);
    Ends(page, total);
    var start, end := WindowStart(page, total), WindowEnd(page, total);
    var items := PageNumbers(page, total);
    var lo := |Leading(start)|;
    if start <= n <= end {
      assert items[lo + n - start] == PageNumber(n);
    }
    if PageNumber(n) in items {
      var k :| 0 <= k < |items| && items[k] == PageNumber(n);
      NumberAt(page, total, k);
    }
  }

  /** The number at any numeric position: 1 before the window, the window's own, the last page after it. */
  lemma NumberAt(page: int, total: int, k: int)
    requires 1 <= page <= total
    requires 0 <= k < |PageNumbers(page, total)| && PageNumbers(page, total)[k].PageNumber?
    ensures var start, end := WindowStart(page, total), WindowEnd(page, total);
      var items := PageNumbers(page, total);
      var lo := |Leading(start)|;
      var hi := lo + end - start + 1;
      (k < lo ==> k == 0 && items[k].n == 1 && start > 1)
      && (lo <= k < hi ==> items[k].n == start + k - lo)
      && (hi <= k ==> k == |items| - 1 && items[k].n == total && end < total)
  {
    Layout(page, total);
    WindowShape(page, total);
  }

  /** Every page shown is in `1..total`, and the pages shown strictly increase from left to right. */
  lemma StrictlyIncreasing(page: int, total: int, i: int, j: int)
    requires 1 <= page <= total
    requires 0 <= i < j < |PageNumbers(page, total)|
    requires PageNumbers(page, total)[i].PageNumber? && PageNumbers(page, total)[j].PageNumber?
    ensures var items := PageNumbers(page, total);
      1 <= items[i].n < items[j].n <= total
  {
    NumberAt(page, total, i);
    NumberAt(page, total, j);
    WindowShape(page, total);
  }

  /**
   * An ellipsis stands exactly for skipped pages: it sits between two page
   * buttons more than one apart, and two neighbouring page buttons are always
   * one apart (so no two ellipses touch).
   */
  lemma EllipsisMarksGap(page: int, total: int, k: int)
    requires 1 <= page <= total
    requires 0 <= k < |PageNumbers(page, total)|
    ensures var items := PageNumbers(page, total);
      (items[k] == Ellipsis ==>
        0 < k < |items| - 1 && items[k - 1].PageNumber? && items[k + 1].PageNumber?
        && items[k + 1].n > items[k - 1].n + 1)
      && (k + 1 < |items| && items[k].PageNumber? && items[k + 1].PageNumber? ==>
        items[k + 1].n == items[k].n + 1)
  {
    Layout(page, total);
    WindowShape(page, total);
    var items := PageNumbers(page, total);
    if items[k] == Ellipsis {
      NumberAt(page, total, k - 1);
      NumberAt(page, total, k + 1);
    } else if k + 1 < |items| && items[k + 1].PageNumber? {
      NumberAt(page, total, k);
      NumberAt(page, total, k + 1);
    }
  }

  // ---------------------------------------------------------------- the bar

  /** A stepping button: the page its click asks for, and whether it is disabled. */
  datatype Button = Button(target: int, disabled: bool)

  /** The rendered bar: first, previous, the entries, next, last. */
  datatype Bar = Bar(first: Button, previous: Button, items: seq<PageItem>, next: Button, last: Button)

  /** `Pagination`: nothing for a single page or none, otherwise the bar. */
  function Render(page: int, totalPages: int): Option<Bar> {
    if totalPages <= 1 then None
    else Some(Bar(
      Button(1, page == 1),
      Button(page - 1, page == 1),
      PageNumbers(page, totalPages),
      Button(page + 1, page == totalPages),
      Button(totalPages, page == totalPages)))
  }

  /**
   * With more than one page the bar is drawn, first and previous are disabled
   * exactly on page 1, next and last exactly on the last page, and every
   * enabled button goes to another page within range.
   */
  lemma ButtonsStayInRange(page: int, total: int)
    requires 1 <= page <= total
    ensures Render(page, total).None? <==> total <= 1
    ensures total > 1 ==>
      var bar := Render(page, total).value;
      (bar.first.disabled <==> page == 1) && (bar.previous.disabled <==> page == 1)
      && (bar.next.disabled <==> page == total) && (bar.last.disabled <==> page == total)
      && forall b | b in [bar.first, bar.previous, bar.next, bar.last] && !b.disabled ::
           1 <= b.target <= total && b.target != page
  {
  }
}
