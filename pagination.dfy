/**
 * The pagination bar (src/components/Pagination.tsx): a Prev button, a row of
 * page buttons with "..." gaps, and a Next button. Nothing is rendered when
 * there is at most one page. Up to seven pages every page gets a button;
 * beyond that the row is page 1, an optional leading gap, the current page
 * with its two neighbours, an optional trailing gap, and the last page.
 */
module Pagination {
  import opened Wrappers

  /** One element of the row: a page button or a "..." gap. */
  datatype Item = PageButton(page: int) | Ellipsis

  /** What the user can click in the bar. */
  datatype Click = Prev | Next | Page(n: int)

  /** The rendered bar: whether Prev and Next are disabled, and the row between them. */
  datatype Bar = Bar(prevDisabled: bool, items: seq<Item>, nextDisabled: bool)

  /** Up to this many pages, every page gets a button. */
  const MaxVisible: int := 7

  function Max(a: int, b: int): int { if a >= b then a else b }
  function Min(a: int, b: int): int { if a <= b then a else b }

  /** Buttons for pages lo, lo + 1, ..., hi (none when lo > hi). */
  function Run(lo: int, hi: int): seq<Item> {
    if lo <= hi then seq(hi - lo + 1, k requires 0 <= k <= hi - lo => PageButton(lo + k)) else []
  }

  /** The row of page buttons and gaps for the given current page and page count. */
  function Window(currentPage: int, totalPages: int): seq<Item> {
    if totalPages <= MaxVisible then Run(1, totalPages)
    else
      [PageButton(1)]
      + (if currentPage > 3 then [Ellipsis] else [])
      + Run(Max(2, currentPage - 1), Min(totalPages - 1, currentPage + 1))
      + (if currentPage < totalPages - 2 then [Ellipsis] else [])
      + [PageButton(totalPages)]
  }

  lemma RunSnoc(lo: int, hi: int)
    requires lo <= hi + 1
    ensures Run(lo, hi) + [PageButton(hi + 1)] == Run(lo, hi + 1)
  {
    var a, b := Run(lo, hi) + [PageButton(hi + 1)], Run(lo, hi + 1);
    assert |a| == |b|;
    forall k | 0 <= k < |a| ensures a[k] == b[k] {
      if k < hi - lo + 1 { assert a[k] == Run(lo, hi)[k]; }
    }
  }

  /** `renderPageButtons`: builds the row by pushing buttons and gaps one at a time. */
  method RenderPageButtons(currentPage: int, totalPages: int) returns (buttons: seq<Item>)
    ensures buttons == Window(currentPage, totalPages)
  {
    buttons := [];
    if totalPages <= MaxVisible {
      buttons := PushPages(buttons, 1, totalPages);
      assert buttons == Run(1, totalPages);
    } else {
      buttons := buttons + [PageButton(1)];
      if currentPage > 3 {
        buttons := buttons + [Ellipsis];
      }
      var start := Max(2, currentPage - 1);
      var end := Min(totalPages - 1, currentPage + 1);
      buttons := PushPages(buttons, start, end);
      if currentPage < totalPages - 2 {
        buttons := buttons + [Ellipsis];
      }
      buttons := buttons + [PageButton(totalPages)];
    }
  }

  /** The `for (let i = lo; i <= hi; i++)` loops of `renderPageButtons`: one button per page. */
  method PushPages(row: seq<Item>, lo: int, hi: int) returns (buttons: seq<Item>)
    ensures buttons == row + Run(lo, hi)
  {
    buttons := row;
    var i := lo;
    while i <= hi
      invariant lo <= i && (i <= hi + 1 || i == lo)
      invariant buttons == row + Run(lo, i - 1)
    {
      RunSnoc(lo, i - 1);
      buttons := buttons + [PageButton(i)];
      i := i + 1;
    }
    if lo > hi {
      assert Run(lo, hi) == [] && Run(lo, lo - 1) == [];
    }
  }

  /** The whole component: nothing for at most one page, else Prev, the row and Next. */
  method Render(currentPage: int, totalPages: int) returns (bar: Option<Bar>)
    ensures bar == None <==> totalPages <= 1
    ensures bar.Some? ==> bar.value.items == Window(currentPage, totalPages)
    ensures bar.Some? ==> (bar.value.prevDisabled <==> currentPage == 1)
    ensures bar.Some? ==> (bar.value.nextDisabled <==> currentPage == totalPages)
  {
    if totalPages <= 1 {
      return None;
    }
    var items := RenderPageButtons(currentPage, totalPages);
    bar := Some(Bar(currentPage == 1, items, currentPage == totalPages));
  }

  /** The click is available in the bar rendered for `currentPage` of `totalPages`. */
  predicate Offers(currentPage: int, totalPages: int, click: Click) {
    totalPages > 1 &&
    match click
    case Prev => currentPage != 1
    case Next => currentPage != totalPages
    case Page(n) => PageButton(n) in Window(currentPage, totalPages)
  }

  /** The page a click asks for (`onPageChange`'s argument). */
  function Target(currentPage: int, click: Click): int {
    match click
    case Prev => currentPage - 1
    case Next => currentPage + 1
    case Page(n) => n
  }

  // ---------------------------------------------------------------------------
  // Properties of the row
  // ---------------------------------------------------------------------------

  ghost predicate PagesWithin(items: seq<Item>, totalPages: int) {
    forall i :: 0 <= i < |items| && items[i].PageButton? ==> 1 <= items[i].page <= totalPages
  }

  ghost predicate PagesIncrease(items: seq<Item>) {
    forall i, j :: 0 <= i < j < |items| && items[i].PageButton? && items[j].PageButton? ==>
      items[i].page < items[j].page
  }

  /** Two page buttons side by side, with no gap between them, are consecutive pages. */
  ghost predicate NeighboursConsecutive(items: seq<Item>) {
    forall i :: 0 <= i < |items| - 1 && items[i].PageButton? && items[i + 1].PageButton? ==>
      items[i + 1].page == items[i].page + 1
  }

  /** Every gap sits between two page buttons and stands for at least one page. */
  ghost predicate GapsHidePages(items: seq<Item>) {
    forall i :: 0 <= i < |items| && items[i].Ellipsis? ==>
      0 < i < |items| - 1 && items[i - 1].PageButton? && items[i + 1].PageButton? &&
      items[i - 1].page + 1 < items[i + 1].page
  }

  /** Page `p` has a button, or falls strictly inside a gap. */
  ghost predicate Represents(items: seq<Item>, p: int) {
    exists i :: 0 <= i < |items| &&
      (items[i] == PageButton(p) ||
       (items[i].Ellipsis? && 0 < i < |items| - 1 && items[i - 1].PageButton? && items[i + 1].PageButton? &&
        items[i - 1].page < p < items[i + 1].page))
  }

  function ButtonCount(items: seq<Item>): nat {
    if items == [] then 0 else (if items[0].PageButton? then 1 else 0) + ButtonCount(items[1..])
  }

  lemma {:induction false} ButtonCountAppend(a: seq<Item>, b: seq<Item>)
    ensures ButtonCount(a + b) == ButtonCount(a) + ButtonCount(b)
  {
    if a == [] {
      assert a + b == b;
    } else {
      assert (a + b)[1..] == a[1..] + b;
      ButtonCountAppend(a[1..], b);
    }
  }

  lemma {:induction false} ButtonCountRun(lo: int, hi: int)
    ensures ButtonCount(Run(lo, hi)) == |Run(lo, hi)|
    decreases hi - lo
  {
    if lo <= hi {
      assert Run(lo, hi)[1..] == Run(lo + 1, hi);
      ButtonCountRun(lo + 1, hi);
    }
  }

  /** Whatever the current page, the buttons lie within 1..totalPages and strictly increase. */
  lemma WindowPagesOrdered(currentPage: int, totalPages: int)
    ensures PagesWithin(Window(currentPage, totalPages), totalPages)
    ensures PagesIncrease(Window(currentPage, totalPages))
  {
    var w := Window(currentPage, totalPages);
    if totalPages > MaxVisible {
      var start, end := Max(2, currentPage - 1), Min(totalPages - 1, currentPage + 1);
      var left := [PageButton(1)] + (if currentPage > 3 then [Ellipsis] else []);
      var mid := Run(start, end);
      var right := (if currentPage < totalPages - 2 then [Ellipsis] else []) + [PageButton(totalPages)];
      assert w == left + mid + right;
      forall i | 0 <= i < |w| && w[i].PageButton?
        ensures 1 <= w[i].page <= totalPages
        ensures i < |left| ==> w[i].page == 1
        ensures |left| <= i < |left| + |mid| ==> w[i].page == start + (i - |left|)
        ensures |left| + |mid| <= i ==> w[i].page == totalPages
      {
        if i < |left| { assert w[i] == left[i]; }
        else if i < |left| + |mid| { assert w[i] == mid[i - |left|]; }
        else { assert w[i] == right[i - |left| - |mid|]; }
      }
    }
  }

  /** Up to seven pages, the row is exactly the buttons 1..totalPages in order. */
  lemma SmallWindowListsAllPages(currentPage: int, totalPages: int)
    requires 1 < totalPages <= MaxVisible
    ensures |Window(currentPage, totalPages)| == totalPages
    ensures forall k :: 0 <= k < totalPages ==> Window(currentPage, totalPages)[k] == PageButton(k + 1)
  {
  }

  /**
   * Beyond seven pages the row starts with page 1 and ends with the last
   * page; a leading gap follows page 1 exactly when the current page is past
   * 3, and a trailing gap precedes the last page exactly when the current page
   * is more than two before it; at most five buttons and two gaps are shown.
   */
  lemma LargeWindowShape(currentPage: int, totalPages: int)
    requires totalPages > MaxVisible
    requires 1 <= currentPage <= totalPages
    ensures var w := Window(currentPage, totalPages);
      && |w| >= 3
      && w[0] == PageButton(1)
      && w[|w| - 1] == PageButton(totalPages)
      && (w[1] == Ellipsis <==> currentPage > 3)
      && (w[|w| - 2] == Ellipsis <==> currentPage < totalPages - 2)
      && ButtonCount(w) <= 5
      && |w| - ButtonCount(w) <= 2
  {
    var start, end := Max(2, currentPage - 1), Min(totalPages - 1, currentPage + 1);
    var e1 := if currentPage > 3 then [Ellipsis] else [];
    var e2 := if currentPage < totalPages - 2 then [Ellipsis] else [];
    var mid := Run(start, end);
    var w := Window(currentPage, totalPages);
    assert start <= end;
    assert w == [PageButton(1)] + e1 + mid + e2 + [PageButton(totalPages)];
    assert w[1] == (if currentPage > 3 then Ellipsis else mid[0]);
    assert w[|w| - 2] == (if currentPage < totalPages - 2 then Ellipsis else mid[|mid| - 1]);
    ButtonCountAppend([PageButton(1)] + e1 + mid + e2, [PageButton(totalPages)]);
    ButtonCountAppend([PageButton(1)] + e1 + mid, e2);
    ButtonCountAppend([PageButton(1)] + e1, mid);
    ButtonCountAppend([PageButton(1)], e1);
    ButtonCountRun(start, end);
  }

  function Start(currentPage: int): int { Max(2, currentPage - 1) }
  function End(currentPage: int, totalPages: int): int { Min(totalPages - 1, currentPage + 1) }
  /** Index of the first middle button: after page 1 and the leading gap, if any. */
  function MidFrom(currentPage: int): int { if currentPage > 3 then 2 else 1 }
  /** Index just past the middle buttons. */
  function MidTo(currentPage: int, totalPages: int): int {
    MidFrom(currentPage) + End(currentPage, totalPages) - Start(currentPage) + 1
  }

  /** Where each element of a row of more than seven pages sits, for a current page in range. */
  lemma LargeWindowLayout(currentPage: int, totalPages: int)
    requires totalPages > MaxVisible
    requires 1 <= currentPage <= totalPages
    ensures var w, m, r := Window(currentPage, totalPages), MidFrom(currentPage), MidTo(currentPage, totalPages);
      && Start(currentPage) <= End(currentPage, totalPages)
      && |w| == r + (if currentPage < totalPages - 2 then 1 else 0) + 1
      && w[0] == PageButton(1)
      && (currentPage > 3 ==> w[1] == Ellipsis)
      && (forall i :: m <= i < r ==> w[i] == PageButton(Start(currentPage) + i - m))
      && (currentPage < totalPages - 2 ==> w[r] == Ellipsis)
      && w[|w| - 1] == PageButton(totalPages)
  {
    var start, end := Start(currentPage), End(currentPage, totalPages);
    var e1 := if currentPage > 3 then [Ellipsis] else [];
    var e2 := if currentPage < totalPages - 2 then [Ellipsis] else [];
    var mid := Run(start, end);
    var left := [PageButton(1)] + e1;
    var w := Window(currentPage, totalPages);
    assert w == left + mid + e2 + [PageButton(totalPages)];
    var m := |left|;
    forall i | m <= i < m + |mid| ensures w[i] == PageButton(start + i - m) {
      assert w[i] == mid[i - m];
    }
  }

  /** For a current page in range, the current page has a button, and only one. */
  lemma WindowShowsCurrentOnce(currentPage: int, totalPages: int)
    requires 1 <= currentPage <= totalPages
    ensures var w := Window(currentPage, totalPages);
      && PageButton(currentPage) in w
      && (forall i, j ::
            (0 <= i < |w| && 0 <= j < |w| && w[i] == PageButton(currentPage) && w[j] == PageButton(currentPage))
            ==> i == j)
  {
    var w := Window(currentPage, totalPages);
    WindowPagesOrdered(currentPage, totalPages);
    if totalPages <= MaxVisible {
      assert w[currentPage - 1] == PageButton(currentPage);
    } else {
      LargeWindowLayout(currentPage, totalPages);
      assert w[MidFrom(currentPage) + currentPage - Start(currentPage)] == PageButton(currentPage);
    }
  }

  /** For a current page in range, adjacent buttons are consecutive and every gap hides a page. */
  lemma WindowGapsMarkMissingPages(currentPage: int, totalPages: int)
    requires 1 <= currentPage <= totalPages
    ensures NeighboursConsecutive(Window(currentPage, totalPages))
    ensures GapsHidePages(Window(currentPage, totalPages))
  {
    if totalPages > MaxVisible {
      LargeWindowLayout(currentPage, totalPages);
      LargeNeighboursConsecutive(currentPage, totalPages);
      LargeGapsHidePages(currentPage, totalPages);
    }
  }

  lemma LargeNeighboursConsecutive(currentPage: int, totalPages: int)
    requires totalPages > MaxVisible
    requires 1 <= currentPage <= totalPages
    ensures NeighboursConsecutive(Window(currentPage, totalPages))
  {
    var w := Window(currentPage, totalPages);
    LargeWindowLayout(currentPage, totalPages);
    var m, r := MidFrom(currentPage), MidTo(currentPage, totalPages);
    forall i | 0 <= i < |w| - 1 && w[i].PageButton? && w[i + 1].PageButton?
      ensures w[i + 1].page == w[i].page + 1
    {
      if i == 0 { assert w[1] == w[m]; }
      else if i + 1 < r { assert w[i] == w[m + (i - m)]; }
      else { assert i == r - 1 && w[i] == PageButton(End(currentPage, totalPages)); }
    }
  }

  lemma LargeGapsHidePages(currentPage: int, totalPages: int)
    requires totalPages > MaxVisible
    requires 1 <= currentPage <= totalPages
    ensures GapsHidePages(Window(currentPage, totalPages))
  {
    var w := Window(currentPage, totalPages);
    LargeWindowLayout(currentPage, totalPages);
    var m, r := MidFrom(currentPage), MidTo(currentPage, totalPages);
    forall i | 0 <= i < |w| && w[i].Ellipsis?
      ensures 0 < i < |w| - 1 && w[i - 1].PageButton? && w[i + 1].PageButton?
      ensures w[i - 1].page + 1 < w[i + 1].page
    {
      if i < m { assert i == 1 && w[2] == w[m]; }
      else { assert i == r && w[i - 1] == PageButton(End(currentPage, totalPages)); }
    }
  }

  /** For a current page in range, every page of 1..totalPages is shown or lies inside a gap. */
  lemma WindowRepresentsAllPages(currentPage: int, totalPages: int)
    requires 1 <= currentPage <= totalPages
    ensures forall p :: 1 <= p <= totalPages ==> Represents(Window(currentPage, totalPages), p)
  {
    var w := Window(currentPage, totalPages);
    if totalPages <= MaxVisible {
      forall p | 1 <= p <= totalPages ensures Represents(w, p) {
        assert w[p - 1] == PageButton(p);
      }
    } else {
      LargeWindowLayout(currentPage, totalPages);
      var m, r := MidFrom(currentPage), MidTo(currentPage, totalPages);
      var start, end := Start(currentPage), End(currentPage, totalPages);
      forall p | 1 <= p <= totalPages ensures Represents(w, p) {
        if p == 1 { assert w[0] == PageButton(1); }
        else if p == totalPages { assert w[|w| - 1] == PageButton(p); }
        else if p < start { assert w[1] == Ellipsis && w[2] == PageButton(start); }
        else if p <= end { assert w[m + (p - start)] == PageButton(p); }
        else { assert w[r] == Ellipsis && w[r - 1] == PageButton(end) && w[r + 1] == PageButton(totalPages); }
      }
    }
  }

  /** For a current page in range, every available click asks for a page in range. */
  lemma ClickStaysInRange(currentPage: int, totalPages: int, click: Click)
    requires 1 <= currentPage <= totalPages
    requires Offers(currentPage, totalPages, click)
    ensures 1 <= Target(currentPage, click) <= totalPages
  {
    if click.Page? {
      WindowPagesOrdered(currentPage, totalPages);
      var w := Window(currentPage, totalPages);
      var i :| 0 <= i < |w| && w[i] == PageButton(click.n);
    }
  }

  /** From any page at or after 1, every available click asks for a page at or after 1. */
  lemma ClickStaysPositive(currentPage: int, totalPages: int, click: Click)
    requires currentPage >= 1
    requires Offers(currentPage, totalPages, click)
    ensures Target(currentPage, click) >= 1
  {
    if click.Page? {
      WindowPagesOrdered(currentPage, totalPages);
      var w := Window(currentPage, totalPages);
      var i :| 0 <= i < |w| && w[i] == PageButton(click.n);
    }
  }

  /**
   * Next is disabled only when the current page equals the page count, so
   * a current page past the end (the count shrank after it was chosen)
   * leaves Next enabled and asking for a page further out.
   */
  lemma NextEnabledPastTheEnd(currentPage: int, totalPages: int)
    requires 1 < totalPages < currentPage
    ensures Offers(currentPage, totalPages, Next)
    ensures Target(currentPage, Next) == currentPage + 1 > totalPages
  {
  }
}
