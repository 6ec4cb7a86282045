/**
 * The pagination bar under the health-tracking history table: a window of
 * at most five page buttons around the current page, and Prev / Next
 * buttons that stay inside 1..totalPages.
 */
module HistoryTable {

  const MaxVisibleButtons := 5

  /** One numbered page button; only the current page's button is active. */
  datatype Button = Button(page: int, active: bool)

  /** The first and last page of the button window. */
  datatype Window = Window(start: int, end: int)

  /** renderPaginationButtons' choice of startPage and endPage. */
  function WindowFor(current: int, totalPages: int): Window {
    if totalPages <= MaxVisibleButtons then Window(1, totalPages)
    else if current <= 3 then Window(1, 5)
    else if current + 2 >= totalPages then Window(totalPages - 4, totalPages)
    else Window(current - 2, current + 2)
  }

  /** The buttons for pages start..end, ascending, one per page. */
  function ButtonsFor(w: Window, current: int): (r: seq<Button>)
    ensures w.end < w.start ==> r == []
    ensures w.start <= w.end ==> |r| == w.end - w.start + 1
  {
    if w.end < w.start then []
    else seq(w.end - w.start + 1, k requires 0 <= k <= w.end - w.start => Button(w.start + k, w.start + k == current))
  }

  /** With at most five pages every page has a button. */
  lemma SmallWindowShowsAll(current: int, totalPages: int)
    requires totalPages <= MaxVisibleButtons
    ensures WindowFor(current, totalPages) == Window(1, totalPages)
    ensures var bs := ButtonsFor(WindowFor(current, totalPages), current);
      |bs| == (if totalPages < 1 then 0 else totalPages) &&
      forall k :: 0 <= k < |bs| ==> bs[k].page == k + 1
  {
  }

  /** With more than five pages the window is five consecutive pages inside
      1..totalPages, whatever the current page; it is 1..5 near the start,
      the last five near the end and centred on the current page otherwise. */
  lemma LargeWindow(current: int, totalPages: int)
    requires totalPages > MaxVisibleButtons
    ensures var w := WindowFor(current, totalPages);
      w.end - w.start == 4 && 1 <= w.start && w.end <= totalPages
    ensures current <= 3 ==> WindowFor(current, totalPages) == Window(1, 5)
    ensures 3 < current && current + 2 >= totalPages ==>
      WindowFor(current, totalPages) == Window(totalPages - 4, totalPages)
    ensures 3 < current && current + 2 < totalPages ==>
      WindowFor(current, totalPages) == Window(current - 2, current + 2)
  {
  }

  /** A valid current page always lies inside the window, which lies inside
      1..totalPages. */
  lemma WindowContainsCurrent(current: int, totalPages: int)
    requires 1 <= current <= totalPages
    ensures var w := WindowFor(current, totalPages);
      1 <= w.start <= current <= w.end <= totalPages
  {
  }

  /** Exactly one button is active when the current page is in the window. */
  lemma OneActiveButton(current: int, totalPages: int)
    requires 1 <= current <= totalPages
    ensures var bs := ButtonsFor(WindowFor(current, totalPages), current);
      exists k :: (0 <= k < |bs| && bs[k].active && bs[k].page == current &&
        forall m :: 0 <= m < |bs| && m != k ==> !bs[m].active)
  {
    WindowContainsCurrent(current, totalPages);
    var w := WindowFor(current, totalPages);
    var bs := ButtonsFor(w, current);
    var k := current - w.start;
    assert bs[k].active && bs[k].page == current;
  }

  /** renderPaginationButtons: picks the window, then pushes one button per
      page of it in a loop. */
  method RenderPaginationButtons(currentPage: int, totalPages: int) returns (buttons: seq<Button>)
    ensures buttons == ButtonsFor(WindowFor(currentPage, totalPages), currentPage)
    ensures forall k :: 0 <= k < |buttons| ==> (buttons[k].active <==> buttons[k].page == currentPage)
    ensures forall k :: 0 < k < |buttons| ==> buttons[k].page == buttons[k - 1].page + 1
  {
    var startPage: int;
    var endPage: int;
    if totalPages <= MaxVisibleButtons {
      startPage := 1;
      endPage := totalPages;
    } else if currentPage <= 3 {
      startPage := 1;
      endPage := 5;
    } else if currentPage + 2 >= totalPages {
      startPage := totalPages - 4;
      endPage := totalPages;
    } else {
      startPage := currentPage - 2;
      endPage := currentPage + 2;
    }
    buttons := [];
    var i := startPage;
    while i <= endPage
      invariant startPage <= i && (startPage <= endPage ==> i <= endPage + 1)
      invariant endPage < startPage ==> i == startPage
      invariant |buttons| == i - startPage
      invariant forall k :: 0 <= k < |buttons| ==> buttons[k] == Button(startPage + k, startPage + k == currentPage)
    {
      buttons := buttons + [Button(i, i == currentPage)];
      i := i + 1;
    }
    assert WindowFor(currentPage, totalPages) == Window(startPage, endPage);
    if startPage <= endPage {
      var expected := ButtonsFor(Window(startPage, endPage), currentPage);
      assert |buttons| == |expected|;
      assert forall k :: 0 <= k < |buttons| ==> buttons[k] == expected[k];
      assert buttons == expected;
    } else {
      assert buttons == [];
    }
  }

  /** The Prev button's target, Math.max(page - 1, 1). */
  function PrevTarget(page: int): int {
    if page - 1 > 1 then page - 1 else 1
  }

  /** The Next button's target, Math.min(page + 1, totalPages). */
  function NextTarget(page: int, totalPages: int): int {
    if page + 1 < totalPages then page + 1 else totalPages
  }

  /** From a valid page, Prev and Next stay inside 1..totalPages and move by
      at most one page; each stays put exactly where its button is disabled. */
  lemma PrevNextInRange(page: int, totalPages: int)
    requires 1 <= page <= totalPages
    ensures 1 <= PrevTarget(page) <= page && page - PrevTarget(page) <= 1
    ensures page <= NextTarget(page, totalPages) <= totalPages && NextTarget(page, totalPages) - page <= 1
    ensures PrevTarget(page) == page <==> page == 1
    ensures NextTarget(page, totalPages) == page <==> page == totalPages
  {
  }

  /** The pagination bar: Prev, the numbered buttons and Next. */
  datatype Bar = Bar(prev: int, prevDisabled: bool, buttons: seq<Button>, next: int, nextDisabled: bool)

  /** What HistoryTable renders for a list of recordCount records. */
  datatype View = NoRecords | Table(rows: nat, bar: Bar, showBar: bool)

  /** HistoryTable: the no-records notice for an empty list; otherwise one
      row per record and, only when there is more than one page, the bar. */
  method Render(recordCount: nat, page: int, totalPages: int) returns (v: View)
    ensures recordCount == 0 <==> v.NoRecords?
    ensures v.Table? ==> v.rows == recordCount && (v.showBar <==> totalPages > 1)
    ensures v.Table? ==> v.bar == Bar(PrevTarget(page), page == 1,
      ButtonsFor(WindowFor(page, totalPages), page), NextTarget(page, totalPages), page == totalPages)
  {
    if recordCount == 0 {
      return NoRecords;
    }
    var buttons := RenderPaginationButtons(page, totalPages);
    var prev := if page - 1 > 1 then page - 1 else 1;
    var next := if page + 1 < totalPages then page + 1 else totalPages;
    v := Table(recordCount, Bar(prev, page == 1, buttons, next, page == totalPages), totalPages > 1);
  }
}
