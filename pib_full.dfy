/** `PIBFullExtractor`: the production PIB scraper that walks every page of the
    accreditation list, keeps unique rows, checkpoints every ten pages and
    writes the final workbook. */
module PibFull {
  import opened Common
  import opened PyStr
  import opened PibPage

  type Table = seq<Row>

  /** `self.total_pages` before the site confirms it. */
  const TotalPages: int := 191

  /** `self.checkpoint_interval` */
  const CheckpointInterval: int := 10

  /** The JSON object of `pib_extraction_progress.json`, `None` for a key it
      lacks; `Unreadable` when it is not valid JSON. */
  datatype ProgressFile = Unreadable | Progress(currentPage: Option<int>, dataFile: Option<string>)

  /** `f"temp_pib_data_{self.current_page}.xlsx"` */
  function TempFile(page: int): string {
    "temp_pib_data_" + IntText(page) + ".xlsx"
  }

  /** `file.startswith('temp_pib_data_') and file.endswith('.xlsx')` */
  predicate IsTempFile(name: string) {
    |name| >= 14 && name[..14] == "temp_pib_data_" && |name| >= 5 && name[|name| - 5..] == ".xlsx"
  }

  /** Every checkpoint's data file is one the clean-up removes. */
  lemma TempFileIsTemp(page: int)
    ensures IsTempFile(TempFile(page))
  {
    var t := TempFile(page);
    assert t[..14] == "temp_pib_data_";
    assert t[|t| - 5..] == ".xlsx";
  }

  /** The extractor's fields and the files it reads and writes: the progress
      file (`None` when absent), the spreadsheets in the working directory
      (`None` for one that cannot be read) and the output workbook. */
  datatype Extractor = Extractor(allData: Table, currentPage: int, totalPages: int,
                                 progress: Option<ProgressFile>, files: map<string, Option<Table>>,
                                 output: Option<Sheet>)

  /** `load_progress` */
  function Loaded(e: Extractor): (r: Extractor)
    ensures r.totalPages == e.totalPages && r.progress == e.progress && r.files == e.files && r.output == e.output
    ensures r.allData == e.allData || (e.progress.Some? && e.progress.value.Progress?
                                       && e.progress.value.dataFile.Some?
                                       && e.progress.value.dataFile.value in e.files
                                       && e.files[e.progress.value.dataFile.value] == Some(r.allData))
  {
    if e.progress.None? then e
    else match e.progress.value
      case Unreadable => e.(currentPage := 1)
      case Progress(page, dataFile) =>
        if dataFile.Some? && dataFile.value != "" && dataFile.value in e.files then
          match e.files[dataFile.value]
          case None => e.(currentPage := 1)
          case Some(t) => e.(currentPage := page.GetOr(1), allData := t)
        else e.(currentPage := page.GetOr(1))
  }

  /** `save_progress`: the data goes to the page's temp file when there is
      any; the progress file names that file either way. */
  function SavedProgress(e: Extractor): (r: Extractor)
    ensures r.allData == e.allData && r.currentPage == e.currentPage && r.totalPages == e.totalPages
    ensures r.output == e.output
    ensures r.progress == Some(Progress(Some(e.currentPage), Some(TempFile(e.currentPage))))
  {
    var temp := TempFile(e.currentPage);
    e.(files := if e.allData != [] then e.files[temp := Some(e.allData)] else e.files,
       progress := Some(Progress(Some(e.currentPage), Some(temp))))
  }

  /** A fresh extractor over the same files, as a later run makes it. */
  function Restarted(e: Extractor, resumeFromPage: int): Extractor {
    Extractor([], resumeFromPage, TotalPages, e.progress, e.files, None)
  }

  /** A run restarted after a checkpoint with data resumes at the
      checkpointed page with the checkpointed rows, whatever page it is told
      to resume from. */
  lemma LoadAfterSave(e: Extractor, resumeFromPage: int)
    requires e.allData != []
    ensures var r := Loaded(Restarted(SavedProgress(e), resumeFromPage));
            r.allData == e.allData && r.currentPage == e.currentPage
  {
  }

  /** Without data the checkpoint names a file it never wrote: the page is
      restored, the rows are not (unless a stale file of that name exists). */
  lemma LoadAfterEmptySave(e: Extractor, resumeFromPage: int)
    requires e.allData == [] && TempFile(e.currentPage) !in e.files
    ensures var r := Loaded(Restarted(SavedProgress(e), resumeFromPage));
            r.allData == [] && r.currentPage == e.currentPage
  {
  }

  // ----- unique accumulation -----

  /** `if record not in self.all_data: self.all_data.append(record)` for each row. */
  function UniqueAppend(all: Table, rows: Table): Table
    decreases |rows|
  {
    if rows == [] then all
    else UniqueAppend(if rows[0] in all then all else all + [rows[0]], rows[1..])
  }

  predicate NoDuplicates(t: Table) {
    forall i, j | 0 <= i < j < |t| :: t[i] != t[j]
  }

  /** The list never shrinks, keeps its order, gains no duplicate, and ends up
      holding every row of the page. */
  lemma {:induction false} UniqueAppendGrows(all: Table, rows: Table)
    ensures var r := UniqueAppend(all, rows);
            |all| <= |r| && r[..|all|] == all
            && (NoDuplicates(all) ==> NoDuplicates(r))
            && forall k | 0 <= k < |rows| :: rows[k] in r
    decreases |rows|
  {
    if rows != [] {
      var next := if rows[0] in all then all else all + [rows[0]];
      UniqueAppendGrows(next, rows[1..]);
      var r := UniqueAppend(next, rows[1..]);
      assert r[..|all|] == r[..|next|][..|all|];
      assert rows[0] in next;
      assert rows[0] in r by {
        var i :| 0 <= i < |next| && next[i] == rows[0];
        assert r[i] == next[i];
      }
      forall k | 0 < k < |rows|
        ensures rows[k] in r
      {
        assert rows[k] == rows[1..][k - 1];
      }
      if NoDuplicates(all) && rows[0] !in all {
        forall i, j | 0 <= i < j < |next|
          ensures next[i] != next[j]
        {
          if j == |all| {
            assert next[i] == all[i];
          }
        }
      }
    }
  }

  /** Every row of the result was already there or comes from the page. */
  lemma {:induction false} UniqueAppendFrom(all: Table, rows: Table, x: Row)
    requires x in UniqueAppend(all, rows)
    ensures x in all || x in rows
    decreases |rows|
  {
    if rows != [] {
      var next := if rows[0] in all then all else all + [rows[0]];
      UniqueAppendFrom(next, rows[1..], x);
      if x in rows[1..] {
        assert x in rows;
      }
    }
  }

  // ----- the page loop -----

  /** What the browser shows on one pass of the page loop: the rows of the
      first table (empty when the table did not load) and what each of the
      three "Next" attempts meets. */
  datatype PageVisit = PageVisit(rows: Table, attempt: nat -> Attempt)

  /** `navigate_to_next_page` from attempt `k` of `range(3)` on: the page
      reached, or `None` for `False`. */
  function NavigateFrom(attempt: nat -> Attempt, k: nat): Option<nat>
    decreases 3 - k
  {
    if k >= 3 then None
    else match AttemptOutcome(attempt(k))
      case GiveUp => None
      case Arrived(p) => Some(p)
      case Retry => NavigateFrom(attempt, k + 1)
  }

  function Navigate(attempt: nat -> Attempt): Option<nat> {
    NavigateFrom(attempt, 0)
  }

  /** Navigation succeeds only by polling, after a click, a page number
      greater than the one read before it. */
  lemma {:induction false} NavigateForward(attempt: nat -> Attempt, k: nat)
    requires NavigateFrom(attempt, k).Some?
    ensures exists j | k <= j < 3 :: attempt(j).Clicked? && attempt(j).before.Some?
                                     && NavigateFrom(attempt, k).value > attempt(j).before.value
                                     && Some(NavigateFrom(attempt, k).value) in attempt(j).polls
    decreases 3 - k
  {
    var a := attempt(k);
    if AttemptOutcome(a).Retry? {
      NavigateForward(attempt, k + 1);
    } else {
      assert a.Clicked?;
    }
  }

  /** At most three attempts are made: later ones never matter. */
  lemma {:induction false} NavigateAtMostThree(attempt: nat -> Attempt, other: nat -> Attempt, k: nat)
    requires forall j | 0 <= j < 3 :: attempt(j) == other(j)
    ensures NavigateFrom(attempt, k) == NavigateFrom(other, k)
    decreases 3 - k
  {
    if k < 3 {
      NavigateAtMostThree(attempt, other, k + 1);
    }
  }

  /** The page's rows, unique-appended. */
  function Collect(visit: int -> PageVisit, pageCount: int, e: Extractor): (r: Extractor)
    ensures r.currentPage == e.currentPage && r.totalPages == e.totalPages
  {
    e.(allData := UniqueAppend(e.allData, PageRows(visit(pageCount).rows, e.currentPage == 1)))
  }

  /** `if page_count % self.checkpoint_interval == 0: self.save_progress()` */
  function Checkpointed(pageCount: int, e: Extractor): (r: Extractor)
    ensures r.currentPage == e.currentPage && r.totalPages == e.totalPages && r.allData == e.allData
  {
    if pageCount % CheckpointInterval == 0 then SavedProgress(e) else e
  }

  /** Why the page loop ended: the condition failed, navigation failed
      (`break`), or the progress report divided by zero pages (the jump of
      `current_page` past `page_count` makes `pages_processed` zero). */
  datatype Stop = Finished | NavFailed | Crashed

  /** Where the page loop ends, with the pages at which progress was saved. */
  datatype CrawlEnd = CrawlEnd(e: Extractor, pageCount: int, stop: Stop, saves: seq<int>)

  /** `while page_count <= self.total_pages` from `pageCount` on. */
  function Crawl(visit: int -> PageVisit, pageCount: int, e: Extractor): CrawlEnd
    decreases e.totalPages - pageCount
  {
    if pageCount > e.totalPages then CrawlEnd(e, pageCount, Finished, [])
    else
      var e1 := Checkpointed(pageCount, Collect(visit, pageCount, e));
      var here := if pageCount % CheckpointInterval == 0 then [pageCount] else [];
      if pageCount % CheckpointInterval == 0 && pageCount - (e1.currentPage - 1) == 0 then
        CrawlEnd(e1, pageCount, Crashed, here)
      else if pageCount < e.totalPages then
        match Navigate(visit(pageCount).attempt)
        case None => CrawlEnd(e1, pageCount, NavFailed, here)
        case Some(p) =>
          var c := Crawl(visit, pageCount + 1, e1.(currentPage := p));
          c.(saves := here + c.saves)
      else
        var c := Crawl(visit, pageCount + 1, e1);
        c.(saves := here + c.saves)
  }

  /** The multiples of the checkpoint interval from `a` to `b`. */
  function Multiples(a: int, b: int): seq<int>
    decreases b - a
  {
    if a > b then [] else (if a % CheckpointInterval == 0 then [a] else []) + Multiples(a + 1, b)
  }

  /** The last page the loop processed. */
  function LastPage(c: CrawlEnd): int {
    if c.stop == Finished then c.pageCount - 1 else c.pageCount
  }

  /** Progress is saved exactly at the multiples of ten among the pages the
      loop processed. */
  lemma {:induction false} CrawlCadence(visit: int -> PageVisit, pageCount: int, e: Extractor)
    ensures var c := Crawl(visit, pageCount, e);
            c.saves == Multiples(pageCount, LastPage(c))
    decreases e.totalPages - pageCount
  {
    var c := Crawl(visit, pageCount, e);
    if pageCount > e.totalPages {
      assert c.saves == [] && LastPage(c) == pageCount - 1;
    } else if Halts(visit, pageCount, e) {
      CrawlHalt(visit, pageCount, e);
      CadenceHere(pageCount, c);
    } else {
      var e2 := NextState(visit, pageCount, e);
      CrawlContinue(visit, pageCount, e);
      CrawlCadence(visit, pageCount + 1, e2);
      CrawlRange(visit, pageCount + 1, e2);
      CadenceOn(pageCount, c, Crawl(visit, pageCount + 1, e2));
    }
  }

  /** Whether the loop ends on page `pageCount`: the progress report divides
      by zero, or navigation fails before the last page. */
  predicate Halts(visit: int -> PageVisit, pageCount: int, e: Extractor) {
    var e1 := Checkpointed(pageCount, Collect(visit, pageCount, e));
    (pageCount % CheckpointInterval == 0 && pageCount - (e1.currentPage - 1) == 0)
    || (pageCount < e.totalPages && Navigate(visit(pageCount).attempt).None?)
  }

  /** The state the loop carries to page `pageCount + 1`. */
  function NextState(visit: int -> PageVisit, pageCount: int, e: Extractor): Extractor {
    var e1 := Checkpointed(pageCount, Collect(visit, pageCount, e));
    if pageCount < e.totalPages && Navigate(visit(pageCount).attempt).Some?
    then e1.(currentPage := Navigate(visit(pageCount).attempt).value) else e1
  }

  lemma CrawlHalt(visit: int -> PageVisit, pageCount: int, e: Extractor)
    requires pageCount <= e.totalPages && Halts(visit, pageCount, e)
    ensures var c := Crawl(visit, pageCount, e);
            c.saves == (if pageCount % CheckpointInterval == 0 then [pageCount] else [])
            && LastPage(c) == pageCount
  {
  }

  lemma CrawlContinue(visit: int -> PageVisit, pageCount: int, e: Extractor)
    requires pageCount <= e.totalPages && !Halts(visit, pageCount, e)
    ensures var d := Crawl(visit, pageCount + 1, NextState(visit, pageCount, e));
            Crawl(visit, pageCount, e)
            == d.(saves := (if pageCount % CheckpointInterval == 0 then [pageCount] else []) + d.saves)
  {
  }

  /** The loop stopped on the page it processed last. */
  lemma CadenceHere(pageCount: int, c: CrawlEnd)
    requires c.saves == (if pageCount % CheckpointInterval == 0 then [pageCount] else [])
    requires LastPage(c) == pageCount
    ensures c.saves == Multiples(pageCount, LastPage(c))
  {
    MultiplesStep(pageCount, pageCount);
  }

  /** One page more of saves in front of the rest of the loop's. */
  lemma CadenceOn(pageCount: int, c: CrawlEnd, d: CrawlEnd)
    requires c == d.(saves := (if pageCount % CheckpointInterval == 0 then [pageCount] else []) + d.saves)
    requires d.saves == Multiples(pageCount + 1, LastPage(d))
    requires pageCount <= LastPage(d)
    ensures c.saves == Multiples(pageCount, LastPage(c))
  {
    MultiplesStep(pageCount, LastPage(d));
  }

  lemma MultiplesStep(a: int, b: int)
    requires a <= b
    ensures Multiples(a, b) == (if a % CheckpointInterval == 0 then [a] else []) + Multiples(a + 1, b)
  {
  }

  /** The loop runs from its start page to `total_pages`, leaving early only
      when navigation fails or the progress report divides by zero. */
  lemma {:induction false} CrawlRange(visit: int -> PageVisit, pageCount: int, e: Extractor)
    ensures var c := Crawl(visit, pageCount, e);
            pageCount <= c.pageCount && c.e.totalPages == e.totalPages
            && (c.stop == Finished ==> c.pageCount == if pageCount > e.totalPages then pageCount else e.totalPages + 1)
            && (c.stop == NavFailed ==> c.pageCount < e.totalPages && Navigate(visit(c.pageCount).attempt).None?)
            && (c.stop != Finished ==> c.pageCount <= e.totalPages)
    decreases e.totalPages - pageCount
  {
    if pageCount <= e.totalPages {
      var e1 := Checkpointed(pageCount, Collect(visit, pageCount, e));
      var crashed := pageCount % CheckpointInterval == 0 && pageCount - (e1.currentPage - 1) == 0;
      if !crashed {
        if pageCount < e.totalPages {
          match Navigate(visit(pageCount).attempt)
          case None =>
          case Some(p) => CrawlRange(visit, pageCount + 1, e1.(currentPage := p));
        } else {
          CrawlRange(visit, pageCount + 1, e1);
        }
      }
    }
  }

  /** The rows collected only grow, in order, and gain no duplicate. */
  lemma {:induction false} CrawlKeepsRows(visit: int -> PageVisit, pageCount: int, e: Extractor)
    ensures var c := Crawl(visit, pageCount, e);
            |e.allData| <= |c.e.allData| && c.e.allData[..|e.allData|] == e.allData
            && (NoDuplicates(e.allData) ==> NoDuplicates(c.e.allData))
    decreases e.totalPages - pageCount
  {
    var c := Crawl(visit, pageCount, e);
    if pageCount > e.totalPages {
      assert c.e == e;
    } else {
      var e1 := Checkpointed(pageCount, Collect(visit, pageCount, e));
      CollectKeeps(visit, pageCount, e);
      var crashed := pageCount % CheckpointInterval == 0 && pageCount - (e1.currentPage - 1) == 0;
      if crashed || (pageCount < e.totalPages && Navigate(visit(pageCount).attempt).None?) {
        assert c.e == e1;
      } else {
        var e2 := if pageCount < e.totalPages then e1.(currentPage := Navigate(visit(pageCount).attempt).value) else e1;
        var d := Crawl(visit, pageCount + 1, e2);
        assert c.e == d.e;
        CrawlKeepsRows(visit, pageCount + 1, e2);
        KeepsOn(e.allData, e1.allData, d.e.allData);
      }
    }
  }

  /** One page's collection grows the rows in order without duplicates. */
  lemma CollectKeeps(visit: int -> PageVisit, pageCount: int, e: Extractor)
    ensures var a := Collect(visit, pageCount, e).allData;
            |e.allData| <= |a| && a[..|e.allData|] == e.allData
            && (NoDuplicates(e.allData) ==> NoDuplicates(a))
  {
    UniqueAppendGrows(e.allData, PageRows(visit(pageCount).rows, e.currentPage == 1));
  }

  /** Growing in order without duplicates composes. */
  lemma KeepsOn(a: Table, b: Table, c: Table)
    requires |a| <= |b| && b[..|a|] == a && (NoDuplicates(a) ==> NoDuplicates(b))
    requires |b| <= |c| && c[..|b|] == b && (NoDuplicates(b) ==> NoDuplicates(c))
    ensures |a| <= |c| && c[..|a|] == a && (NoDuplicates(a) ==> NoDuplicates(c))
  {
    assert c[..|a|] == c[..|b|][..|a|];
  }

  /** Whether the browser opened the first page, and the total it shows. */
  datatype Landing = LoadFails | Landed(pages: Option<nat>)

  datatype Finish = Finish(e: Extractor, ok: bool)

  /** The browser before any `driver.get`: the wait for a table times out,
      so the page yields no rows, and there is no "Next" link. */
  function Blank(pageCount: int): PageVisit {
    PageVisit([], k => NoNextLink)
  }

  /** What the page loop sees: `visit` once page 1 was loaded, and the blank
      browser on a resumed run, which never opens the site. */
  function Shown(e: Extractor, visit: int -> PageVisit): int -> PageVisit {
    if e.currentPage == 1 then visit else Blank
  }

  /** `extract_all_data`: load page 1 when starting there, run the page loop,
      save progress once more, and report whether there are rows (the
      closing average divides by `page_count - 1`). */
  function ExtractAll(e: Extractor, landing: Landing, visit: int -> PageVisit): Finish {
    if e.currentPage == 1 && landing.LoadFails? then Finish(e, false)
    else
      var c := PageLoop(e, landing, visit);
      if c.stop == Crashed then Finish(c.e, false)
      else
        var e1 := SavedProgress(c.e);
        if c.pageCount - 1 == 0 then Finish(e1, false)
        else Finish(e1, e1.allData != [])
  }

  /** The extractor as the page loop starts: a fresh run takes the total
      the first page shows, unless it shows none or zero. */
  function Started(e: Extractor, landing: Landing): Extractor {
    if e.currentPage == 1 && landing.Landed? && landing.pages.Some? && landing.pages.value != 0
    then e.(totalPages := landing.pages.value) else e
  }

  /** The page loop of `extract_all_data`. */
  function PageLoop(e: Extractor, landing: Landing, visit: int -> PageVisit): CrawlEnd {
    var e0 := Started(e, landing);
    Crawl(Shown(e, visit), e0.currentPage, e0)
  }

  /** Progress is saved at the multiples of ten among the pages the loop
      processed and, unless the loop crashed, once more after it, naming the
      final `current_page` and its temp file; a crash skips that save, and a
      first page that does not load saves nothing at all. */
  lemma ExtractAllSaves(e: Extractor, landing: Landing, visit: int -> PageVisit)
    ensures e.currentPage == 1 && landing.LoadFails? ==> ExtractAll(e, landing, visit).e == e
    ensures var c := PageLoop(e, landing, visit);
            c.saves == Multiples(Started(e, landing).currentPage, LastPage(c))
    ensures var c := PageLoop(e, landing, visit);
            var x := ExtractAll(e, landing, visit).e;
            !(e.currentPage == 1 && landing.LoadFails?) ==>
              (c.stop == Crashed ==> x == c.e)
              && (c.stop != Crashed ==>
                    x.progress == Some(Progress(Some(c.e.currentPage), Some(TempFile(c.e.currentPage))))
                    && x.allData == c.e.allData && x.currentPage == c.e.currentPage
                    && x.files == (if c.e.allData != [] then c.e.files[TempFile(c.e.currentPage) := Some(c.e.allData)]
                                   else c.e.files))
  {
    var e0 := Started(e, landing);
    CrawlCadence(Shown(e, visit), e0.currentPage, e0);
  }

  /** `cleanup_temp_files`: the progress file and every temp data file go. */
  function CleanedUp(e: Extractor): (r: Extractor)
    ensures r.progress.None?
    ensures forall f | f in r.files :: !IsTempFile(f) && f in e.files && r.files[f] == e.files[f]
    ensures forall f | f in e.files && !IsTempFile(f) :: f in r.files
    ensures r.allData == e.allData && r.currentPage == e.currentPage && r.output == e.output
  {
    e.(progress := None, files := map f | f in e.files && !IsTempFile(f) :: e.files[f])
  }

  /** `save_to_excel`: nothing without rows; otherwise the workbook with the
      first row promoted when it looks like a header, then the clean-up. */
  function SavedToExcel(e: Extractor): Finish {
    if e.allData == [] then Finish(e, false)
    else Finish(CleanedUp(e.(output := Some(Promote(e.allData)))), true)
  }

  /** `run`: set up the driver, extract, save. */
  function RunAll(e: Extractor, driverOk: bool, landing: Landing, visit: int -> PageVisit): Finish {
    if !driverOk then Finish(e, false)
    else
      var x := ExtractAll(e, landing, visit);
      if !x.ok then x else SavedToExcel(x.e)
  }

  /** A successful run leaves the workbook holding every row collected, no
      progress file and no temp data file. */
  lemma RunAllSucceeds(e: Extractor, driverOk: bool, landing: Landing, visit: int -> PageVisit)
    requires RunAll(e, driverOk, landing, visit).ok
    ensures var r := RunAll(e, driverOk, landing, visit).e;
            r.output.Some? && Rows(r.output.value) == r.allData && r.allData != []
            && r.progress.None? && forall f | f in r.files :: !IsTempFile(f)
  {
    var x := ExtractAll(e, landing, visit);
    PromoteRoundTrip(x.e.allData);
  }

  /** A run resumed from a checkpoint page (`current_page` above 1) never
      navigates: it processes that one page, which yields nothing, stops, and
      reports success exactly when the checkpointed rows are non-empty; the
      workbook then holds exactly those rows. */
  lemma ResumedRunKeepsLoaded(e: Extractor, landing: Landing, visit: int -> PageVisit)
    requires 1 < e.currentPage <= e.totalPages
    ensures var x := ExtractAll(e, landing, visit);
            x.e.allData == e.allData && x.e.currentPage == e.currentPage && x.ok == (e.allData != [])
    ensures var r := RunAll(e, true, landing, visit);
            (r.ok <==> e.allData != []) && (r.ok ==> r.e.output.Some? && Rows(r.e.output.value) == e.allData)
  {
    BlankCrawl(e);
    assert Shown(e, visit) == Blank;
    PromoteRoundTrip(e.allData);
  }

  /** The page loop over the blank browser, from a checkpoint page: one page
      with no rows, then a failed navigation or the end of the pages. */
  lemma BlankCrawl(e: Extractor)
    requires 1 < e.currentPage <= e.totalPages
    ensures var c := Crawl(Blank, e.currentPage, e);
            c.stop != Crashed && c.pageCount - 1 != 0
            && c.e.allData == e.allData && c.e.currentPage == e.currentPage
  {
    var p := e.currentPage;
    assert PageRows([], p == 1) == [];
    var e1 := Checkpointed(p, Collect(Blank, p, e));
    assert e1.allData == e.allData && e1.currentPage == p;
    if p < e.totalPages {
      assert Navigate(Blank(p).attempt).None?;
      assert Crawl(Blank, p, e) == CrawlEnd(e1, p, NavFailed, if p % CheckpointInterval == 0 then [p] else []);
    } else {
      assert Crawl(Blank, p + 1, e1) == CrawlEnd(e1, p + 1, Finished, []);
    }
  }

  class PIBFullExtractor {
    var allData: Table
    var currentPage: int
    var totalPages: int
    var progress: Option<ProgressFile>
    var files: map<string, Option<Table>>
    var output: Option<Sheet>

    function State(): Extractor
      reads this
    {
      Extractor(allData, currentPage, totalPages, progress, files, output)
    }

    /** `__init__`: the fields, then `load_progress`. */
    constructor(resumeFromPage: int, progressFile: Option<ProgressFile>, dir: map<string, Option<Table>>)
      ensures State() == Loaded(Extractor([], resumeFromPage, TotalPages, progressFile, dir, None))
    {
      allData := [];
      currentPage := resumeFromPage;
      totalPages := TotalPages;
      progress := progressFile;
      files := dir;
      output := None;
      new;
      LoadProgress();
    }

    method LoadProgress()
      modifies this
      ensures State() == Loaded(old(State()))
    {
      if progress.Some? {
        match progress.value
        case Unreadable =>
          currentPage := 1;
        case Progress(page, dataFile) =>
          currentPage := page.GetOr(1);
          if dataFile.Some? && dataFile.value != "" && dataFile.value in files {
            var table := files[dataFile.value];
            if table.None? {
              currentPage := 1;
            } else {
              allData := table.value;
            }
          }
      }
    }

    method SaveProgress()
      modifies this
      ensures State() == SavedProgress(old(State()))
    {
      var temp := TempFile(currentPage);
      if allData != [] {
        files := files[temp := Some(allData)];
      }
      progress := Some(Progress(Some(currentPage), Some(temp)));
    }

    /** The row loop of `extract_data_from_page`, with `headers_found`. */
    method ExtractDataFromPage(rows: Table) returns (pageData: Table)
      ensures pageData == PageRows(rows, currentPage == 1)
    {
      var firstPage := currentPage == 1;
      pageData := [];
      var headersFound := false;
      var i := 0;
      while i < |rows|
        invariant 0 <= i <= |rows|
        invariant pageData + Scan(rows[i..], headersFound, firstPage) == PageRows(rows, firstPage)
      {
        var rowData := rows[i];
        ScanStep(rows, i, headersFound, firstPage);
        var emitted: Table := [];
        var found := headersFound;
        if rowData != [] && AnyText(rowData) {
          if !headersFound && IsHeader(rowData) {
            found := true;
            if firstPage {
              emitted := [rowData];
            }
          } else if headersFound && |rowData| >= 2 {
            emitted := [rowData];
          }
        }
        assert emitted == Emitted(rowData, headersFound, firstPage);
        assert found == FoundAfter(rowData, headersFound);
        ghost var rest := Scan(rows[i + 1..], found, firstPage);
        ConcatAssoc(pageData, emitted, rest);
        pageData := pageData + emitted;
        headersFound := found;
        i := i + 1;
      }
    }

    /** The `for record in page_data` loop with `new_records`. */
    method AppendUnique(pageData: Table) returns (newRecords: nat)
      modifies this`allData
      ensures allData == UniqueAppend(old(allData), pageData)
      ensures newRecords == |allData| - |old(allData)|
    {
      newRecords := 0;
      var i := 0;
      while i < |pageData|
        invariant 0 <= i <= |pageData|
        invariant UniqueAppend(allData, pageData[i..]) == UniqueAppend(old(allData), pageData)
        invariant newRecords + |old(allData)| == |allData|
      {
        var record := pageData[i];
        assert pageData[i..][1..] == pageData[i + 1..];
        if record !in allData {
          allData := allData + [record];
          newRecords := newRecords + 1;
        }
        i := i + 1;
      }
    }

    /** The `for attempt in range(max_retries)` loop and its waiting loop. */
    method NavigateToNextPage(attempt: nat -> Attempt) returns (moved: bool)
      modifies this`currentPage
      ensures moved == Navigate(attempt).Some?
      ensures currentPage == if moved then Navigate(attempt).value else old(currentPage)
    {
      var k := 0;
      while k < 3
        invariant 0 <= k <= 3
        invariant NavigateFrom(attempt, k) == Navigate(attempt)
        invariant currentPage == old(currentPage)
      {
        var a := attempt(k);
        if a.NoNextLink? {
          return false;
        }
        if a.Clicked? {
          var j := 0;
          while j < |a.polls|
            invariant 0 <= j <= |a.polls|
            invariant WaitFrom(a.before, a.polls[j..]) == WaitFrom(a.before, a.polls)
          {
            var newPage := a.polls[j];
            assert a.polls[j..][1..] == a.polls[j + 1..];
            if newPage.Some? && newPage.value != 0 {
              if a.before.None? {
                // comparing with `None` raises TypeError: the attempt fails
                break;
              }
              if newPage.value > a.before.value {
                currentPage := newPage.value;
                return true;
              }
            }
            j := j + 1;
          }
        }
        k := k + 1;
      }
      return false;
    }

    method ExtractAllData(landing: Landing, visit: int -> PageVisit) returns (ok: bool)
      modifies this
      ensures State() == ExtractAll(old(State()), landing, visit).e
      ensures ok == ExtractAll(old(State()), landing, visit).ok
    {
      if currentPage == 1 {
        if landing.LoadFails? {
          return false;
        }
        if landing.pages.Some? && landing.pages.value != 0 {
          totalPages := landing.pages.value;
        }
      }
      // a resumed run never called `driver.get`
      var shown := if currentPage == 1 then visit else Blank;
      var pageCount := currentPage;
      ghost var goal := Crawl(shown, pageCount, State());
      var stop := Finished;
      while pageCount <= totalPages && stop == Finished
        invariant stop == Finished ==> Crawl(shown, pageCount, State()).(saves := []) == goal.(saves := [])
        invariant stop != Finished ==> CrawlEnd(State(), pageCount, stop, []) == goal.(saves := [])
        decreases totalPages - pageCount, if stop == Finished then 1 else 0
      {
        stop := PageStep(shown, pageCount);
        if stop == Finished {
          pageCount := pageCount + 1;
        }
      }
      if stop == Crashed {
        return false;
      }
      SaveProgress();
      ok := pageCount - 1 != 0 && allData != [];
    }

    /** One pass of the page loop; `Finished` when it carries on. */
    method PageStep(visit: int -> PageVisit, pageCount: int) returns (stop: Stop)
      requires pageCount <= totalPages
      modifies this
      ensures stop == Finished ==>
                (var c := Crawl(visit, pageCount + 1, State());
                 Crawl(visit, pageCount, old(State()))
                 == c.(saves := (if pageCount % CheckpointInterval == 0 then [pageCount] else []) + c.saves))
      ensures stop != Finished ==> Crawl(visit, pageCount, old(State()))
                                   == CrawlEnd(State(), pageCount, stop,
                                               if pageCount % CheckpointInterval == 0 then [pageCount] else [])
      ensures totalPages == old(totalPages)
    {
      var page := visit(pageCount);
      var pageData := ExtractDataFromPage(page.rows);
      if pageData != [] {
        var newRecords := AppendUnique(pageData);
      }
      if pageCount % CheckpointInterval == 0 {
        SaveProgress();
        var pagesProcessed := pageCount - (currentPage - 1);
        if pagesProcessed == 0 {
          // `elapsed_time / pages_processed` raises ZeroDivisionError
          return Crashed;
        }
      }
      if pageCount < totalPages {
        var moved := NavigateToNextPage(page.attempt);
        if !moved {
          return NavFailed;
        }
      }
      return Finished;
    }

    method CleanupTempFiles()
      modifies this
      ensures State() == CleanedUp(old(State()))
    {
      progress := None;
      files := map f | f in files && !IsTempFile(f) :: files[f];
    }

    method SaveToExcel() returns (ok: bool)
      modifies this
      ensures State() == SavedToExcel(old(State())).e
      ensures ok == SavedToExcel(old(State())).ok
    {
      if allData == [] {
        return false;
      }
      output := Some(Promote(allData));
      CleanupTempFiles();
      return true;
    }

    method Run(driverOk: bool, landing: Landing, visit: int -> PageVisit) returns (ok: bool)
      modifies this
      ensures State() == RunAll(old(State()), driverOk, landing, visit).e
      ensures ok == RunAll(old(State()), driverOk, landing, visit).ok
    {
      if !driverOk {
        return false;
      }
      ok := ExtractAllData(landing, visit);
      if ok {
        ok := SaveToExcel();
      }
    }
  }
}
