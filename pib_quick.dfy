/** The PIB quick test: the first `max_pages` pages of the accreditation
    table, every non-empty row kept, no checkpoint and no deduplication. */
module PibQuick {
  import opened Common
  import opened PibPage

  /** The click on the "Next" link: no link found, the click raised, or the
      click went through with the page number read before it and the one
      read three seconds after it. */
  datatype Click = NoNext | ClickRaises | Clicked(before: Option<nat>, after: Option<nat>)

  /** What one iteration of the page loop meets: the rows of the first table
      (`None` when the wait for a table timed out, the page has no table, or
      parsing raised) and the click that follows. */
  datatype QuickVisit = QuickVisit(table: Option<seq<Row>>, click: Click)

  /** `extract_data_from_page`: every error path returns no rows. */
  function PageData(table: Option<seq<Row>>): (rows: seq<Row>)
    ensures table.None? ==> rows == []
    ensures table.Some? ==> forall r :: r in rows <==> r in table.value && AnyText(r)
  {
    match table
    case None => []
    case Some(t) =>
      QuickRowsMembersAll(t);
      QuickRows(t)
  }

  lemma QuickRowsMembersAll(t: seq<Row>)
    ensures forall r :: r in QuickRows(t) <==> r in t && AnyText(r)
  {
    forall r {
      QuickRowsMembers(t, r);
    }
  }

  /** `navigate_to_next_page`: the new page number when it moved on;
      a raised click is caught and reported as failure. */
  function NextPage(c: Click): (page: Option<nat>)
    ensures page.Some? <==> c.Clicked? && c.before.Some? && c.after.Some? && c.after.value > c.before.value
    ensures page.Some? ==> page.value == c.after.value
  {
    match c
    case NoNext => None
    case ClickRaises => None
    case Clicked(before, after) => QuickNavigate(true, before, after)
  }

  /** Where the page loop ends: the rows gathered, the pages processed and
      `current_page`. */
  datatype Progress = Progress(data: seq<Row>, processed: nat, page: int)

  /** `while pages_processed < self.max_pages` with `pages_processed == k`:
      extract, count the page, and move on only when another page is due;
      a failed move ends the loop. */
  function RunFrom(visit: nat -> QuickVisit, maxPages: int, k: nat, page: int): Progress
    decreases maxPages - k
  {
    if k >= maxPages then Progress([], k, page)
    else
      var rows := PageData(visit(k).table);
      if k + 1 < maxPages then
        match NextPage(visit(k).click)
        case None => Progress(rows, k + 1, page)
        case Some(p) =>
          var r := RunFrom(visit, maxPages, k + 1, p);
          r.(data := rows + r.data)
      else Progress(rows, k + 1, page)
  }

  /** Reference definition: the kept rows of pages `k` to `n - 1`, in order. */
  function Gathered(visit: nat -> QuickVisit, k: nat, n: nat): seq<Row>
    decreases n - k
  {
    if n <= k then [] else PageData(visit(k).table) + Gathered(visit, k + 1, n)
  }

  /** The loop processes at least one page and at most `max_pages` when it
      is entered; it stops short only when the click after the last page
      processed did not move on. */
  lemma {:induction false} RunFromBound(visit: nat -> QuickVisit, maxPages: int, k: nat, page: int)
    ensures var r := RunFrom(visit, maxPages, k, page);
            (k < maxPages ==> k < r.processed <= maxPages)
            && (k >= maxPages ==> r.processed == k)
            && (k < r.processed < maxPages ==> NextPage(visit(r.processed - 1).click).None?)
    decreases maxPages - k
  {
    if k < maxPages && k + 1 < maxPages {
      match NextPage(visit(k).click)
      case None =>
      case Some(p) =>
        RunFromBound(visit, maxPages, k + 1, p);
    }
  }

  /** `all_data` grows by exactly the kept rows of the pages processed, in
      page order: `extend` never drops or reorders. */
  lemma {:induction false} RunFromGathered(visit: nat -> QuickVisit, maxPages: int, k: nat, page: int)
    ensures var r := RunFrom(visit, maxPages, k, page);
            r.data == Gathered(visit, k, r.processed)
    decreases maxPages - k
  {
    if k < maxPages {
      var rows := PageData(visit(k).table);
      assert Gathered(visit, k + 1, k + 1) == [];
      if k + 1 < maxPages {
        match NextPage(visit(k).click)
        case None =>
        case Some(p) =>
          RunFromGathered(visit, maxPages, k + 1, p);
          RunFromBound(visit, maxPages, k + 1, p);
      }
    }
  }

  /** Every gathered row comes from the table of a processed page and has at
      least one non-empty cell. */
  lemma {:induction false} GatheredFrom(visit: nat -> QuickVisit, k: nat, n: nat, r: Row)
    requires r in Gathered(visit, k, n)
    ensures AnyText(r)
    ensures exists j | k <= j < n :: visit(j).table.Some? && r in visit(j).table.value
    decreases n - k
  {
    if r in PageData(visit(k).table) {
      assert visit(k).table.Some?;
    } else {
      GatheredFrom(visit, k + 1, n, r);
    }
  }

  /** Pages from `max_pages` on are never looked at. */
  lemma {:induction false} RunFromIgnoresLater(visit: nat -> QuickVisit, other: nat -> QuickVisit,
                                               maxPages: int, k: nat, page: int)
    requires forall j | k <= j < maxPages :: visit(j) == other(j)
    ensures RunFrom(visit, maxPages, k, page) == RunFrom(other, maxPages, k, page)
    decreases maxPages - k
  {
    if k < maxPages && k + 1 < maxPages {
      match NextPage(visit(k).click)
      case None =>
      case Some(p) =>
        RunFromIgnoresLater(visit, other, maxPages, k + 1, p);
    }
  }

  /** The loop's final state seen from page `k`, with `got` gathered so far;
      `stopped` when the last click failed. */
  function Resumed(visit: nat -> QuickVisit, maxPages: int, k: nat, page: int, got: seq<Row>, stopped: bool): Progress {
    if stopped then Progress(got, k, page)
    else
      var r := RunFrom(visit, maxPages, k, page);
      r.(data := got + r.data)
  }

  /** One turn of the loop: page `k` is gathered, and the loop moves on only
      when a click was due and landed on a later page. */
  lemma ResumedStep(visit: nat -> QuickVisit, maxPages: int, k: nat, page: int, got: seq<Row>)
    requires k < maxPages
    ensures var rows := PageData(visit(k).table);
            var next := if k + 1 < maxPages then NextPage(visit(k).click) else None;
            Resumed(visit, maxPages, k, page, got, false)
            == Resumed(visit, maxPages, k + 1, if next.Some? then next.value else page, got + rows, next.None?)
  {
    var rows := PageData(visit(k).table);
    if k + 1 < maxPages && NextPage(visit(k).click).Some? {
      var r := RunFrom(visit, maxPages, k + 1, NextPage(visit(k).click).value);
      ConcatAssoc(got, rows, r.data);
    }
  }

  /** Once stopped or past the last page, nothing more is gathered. */
  lemma ResumedDone(visit: nat -> QuickVisit, maxPages: int, k: nat, page: int, got: seq<Row>, stopped: bool)
    requires stopped || k >= maxPages
    ensures Resumed(visit, maxPages, k, page, got, stopped) == Progress(got, k, page)
  {
    if !stopped {
      assert got + [] == got;
    }
  }

  class PIBQuickTest {
    var allData: seq<Row>
    var currentPage: int
    var maxPages: int
    /** The spreadsheet written at the end, if any. */
    var saved: Option<seq<Row>>

    /** `__init__(max_pages=...)`; the script runs it with 10 pages. */
    constructor(maxPages: int)
      ensures allData == [] && currentPage == 1 && this.maxPages == maxPages && saved == None
    {
      allData := [];
      currentPage := 1;
      this.maxPages := maxPages;
      saved := None;
    }

    /** The `for row in rows` filter of `extract_data_from_page`. */
    method ExtractDataFromPage(table: Option<seq<Row>>) returns (pageData: seq<Row>)
      ensures pageData == PageData(table)
    {
      pageData := [];
      if table.None? {
        return;
      }
      var rows := table.value;
      var i := 0;
      while i < |rows|
        invariant 0 <= i <= |rows|
        invariant pageData + QuickRows(rows[i..]) == QuickRows(rows)
      {
        var rowData := rows[i];
        assert rows[i..][1..] == rows[i + 1..];
        var kept: seq<Row> := if rowData != [] && AnyText(rowData) then [rowData] else [];
        ConcatAssoc(pageData, kept, QuickRows(rows[i + 1..]));
        pageData := pageData + kept;
        i := i + 1;
      }
    }

    /** `navigate_to_next_page` */
    method NavigateToNextPage(click: Click) returns (moved: bool)
      modifies this`currentPage
      ensures moved == NextPage(click).Some?
      ensures currentPage == if moved then NextPage(click).value else old(currentPage)
    {
      moved := false;
      if click.Clicked? {
        var newPage := click.after;
        if newPage.Some? && newPage.value != 0 {
          // comparing with a missing old page number raises TypeError, caught as a failure
          if click.before.Some? && newPage.value > click.before.value {
            currentPage := newPage.value;
            moved := true;
          }
        }
      }
    }

    /** One iteration of the page loop: extract and extend, then click on
        when another page is `due`. */
    method ProcessPage(v: QuickVisit, due: bool) returns (moved: bool)
      modifies this`allData, this`currentPage
      ensures allData == old(allData) + PageData(v.table)
      ensures moved == (due && NextPage(v.click).Some?)
      ensures currentPage == if moved then NextPage(v.click).value else old(currentPage)
    {
      var pageData := ExtractDataFromPage(v.table);
      if pageData != [] {
        allData := allData + pageData;
      }
      moved := false;
      if due {
        moved := NavigateToNextPage(v.click);
      }
    }

    /** `run_test`: `landed` is false when starting the browser or loading the
        first page raised; `writeOk` is false when `df.to_excel` raises, which
        the handler turns into `False` with nothing saved. */
    method RunTest(landed: bool, visit: nat -> QuickVisit, writeOk: bool) returns (ok: bool)
      modifies this
      ensures !landed ==> !ok && allData == old(allData) && currentPage == old(currentPage) && saved == old(saved)
      ensures landed ==> var r := RunFrom(visit, old(maxPages), 0, old(currentPage));
                         allData == old(allData) + r.data && currentPage == r.page
                         && ok == (allData != [] && writeOk)
                         && saved == (if ok then Some(allData) else old(saved))
      ensures maxPages == old(maxPages)
    {
      ok := false;
      if landed {
        ghost var start := allData;
        ghost var got: seq<Row> := [];
        ghost var goal := RunFrom(visit, maxPages, 0, currentPage);
        var pagesProcessed: nat := 0;
        var stop := false;
        while pagesProcessed < maxPages && !stop
          invariant allData == start + got
          invariant goal == Resumed(visit, maxPages, pagesProcessed, currentPage, got, stop)
          invariant maxPages == old(maxPages) && saved == old(saved)
          decreases maxPages - pagesProcessed
        {
          ResumedStep(visit, maxPages, pagesProcessed, currentPage, got);
          var moved := ProcessPage(visit(pagesProcessed), pagesProcessed + 1 < maxPages);
          ConcatAssoc(start, got, PageData(visit(pagesProcessed).table));
          got := got + PageData(visit(pagesProcessed).table);
          pagesProcessed := pagesProcessed + 1;
          stop := !moved;
        }
        ResumedDone(visit, maxPages, pagesProcessed, currentPage, got, stop);
        if allData != [] && writeOk {
          saved := Some(allData);
          ok := true;
        }
      }
    }
  }
}
