/** The pure rules of the two PIB extractors: which table rows are kept,
    which row is the header, the `Page N of M` pagination text, when a click
    on "Next" counts as a move, and the promotion of a header row to the
    spreadsheet's column names. */
module PibPage {
  import opened Common
  import opened PyStr

  /** A table row: the stripped text of each `td`/`th` cell. */
  type Row = seq<string>

  /** `any(row_data)`: some cell has text. */
  predicate AnyText(row: Row) {
    exists i | 0 <= i < |row| :: row[i] != []
  }

  // ----- the quick test's row filter -----

  /** `if cells:` and `if any(row_data):` */
  predicate QuickKeeps(row: Row) {
    row != [] && AnyText(row)
  }

  /** The rows the quick test's `extract_data_from_page` returns. */
  function QuickRows(rows: seq<Row>): (kept: seq<Row>)
    ensures |kept| <= |rows|
    decreases |rows|
  {
    if rows == [] then []
    else (if QuickKeeps(rows[0]) then [rows[0]] else []) + QuickRows(rows[1..])
  }

  /** A row is kept exactly when it is in the table and has some text. */
  lemma {:induction false} QuickRowsMembers(rows: seq<Row>, r: Row)
    ensures r in QuickRows(rows) <==> r in rows && AnyText(r)
    decreases |rows|
  {
    if rows != [] {
      QuickRowsMembers(rows[1..], r);
      assert rows == [rows[0]] + rows[1..];
    }
  }

  /** The filter keeps the table's order: filtering two runs of rows gives
      the two filtered runs, one after the other. */
  lemma {:induction false} QuickRowsAppend(a: seq<Row>, b: seq<Row>)
    ensures QuickRows(a + b) == QuickRows(a) + QuickRows(b)
    decreases |a|
  {
    if a == [] {
      assert a + b == b;
    } else {
      assert (a + b)[0] == a[0] && (a + b)[1..] == a[1..] + b;
      QuickRowsAppend(a[1..], b);
      var k := if QuickKeeps(a[0]) then [a[0]] else [];
      assert k + (QuickRows(a[1..]) + QuickRows(b)) == (k + QuickRows(a[1..])) + QuickRows(b);
    }
  }

  // ----- header detection -----

  /** `'SL.No' in str(cell).upper() or 'NAME' in str(cell).upper()` */
  predicate HeaderCell(cell: string) {
    Contains(Upper(cell), "SL.No") || Contains(Upper(cell), "NAME")
  }

  predicate IsHeader(row: Row) {
    exists i | 0 <= i < |row| :: HeaderCell(row[i])
  }

  /** An upper-cased text never holds the lower-case "o" of "SL.No", so the
      header test is a test for "NAME" alone. */
  lemma HeaderMeansName(row: Row)
    ensures IsHeader(row) <==> exists i | 0 <= i < |row| :: Contains(Upper(row[i]), "NAME")
  {
    forall i | 0 <= i < |row|
      ensures HeaderCell(row[i]) <==> Contains(Upper(row[i]), "NAME")
    {
      UpperNeverContainsSlNo(row[i]);
    }
  }

  // ----- the full extractor's row and header logic -----

  /** What the full extractor's row loop emits for one row: nothing for a row
      without text, the header itself on the first page, and then rows of at
      least two cells. */
  function Emitted(r: Row, found: bool, firstPage: bool): seq<Row> {
    if r == [] || !AnyText(r) then []
    else if !found && IsHeader(r) then (if firstPage then [r] else [])
    else if found && |r| >= 2 then [r]
    else []
  }

  /** `headers_found` after the row. */
  function FoundAfter(r: Row, found: bool): bool {
    found || (r != [] && AnyText(r) && IsHeader(r))
  }

  /** The row loop of the full extractor's `extract_data_from_page` from a
      given row on, with `headers_found` as `found`; `firstPage` is
      `self.current_page == 1`. */
  function Scan(rows: seq<Row>, found: bool, firstPage: bool): seq<Row>
    decreases |rows|
  {
    if rows == [] then []
    else Emitted(rows[0], found, firstPage) + Scan(rows[1..], FoundAfter(rows[0], found), firstPage)
  }

  lemma ScanStep(rows: seq<Row>, i: nat, found: bool, firstPage: bool)
    requires i < |rows|
    ensures Scan(rows[i..], found, firstPage)
            == Emitted(rows[i], found, firstPage) + Scan(rows[i + 1..], FoundAfter(rows[i], found), firstPage)
  {
    assert rows[i..][1..] == rows[i + 1..];
  }

  /** The rows the full extractor returns for a page. */
  function PageRows(rows: seq<Row>, firstPage: bool): seq<Row> {
    Scan(rows, false, firstPage)
  }

  /** A data row: it has text and at least two cells. */
  predicate IsDataRow(r: Row) {
    AnyText(r) && |r| >= 2
  }

  /** Reference definition: the data rows, in order. */
  function DataRows(rows: seq<Row>): (data: seq<Row>)
    ensures forall i | 0 <= i < |data| :: IsDataRow(data[i])
    decreases |rows|
  {
    if rows == [] then [] else (if IsDataRow(rows[0]) then [rows[0]] else []) + DataRows(rows[1..])
  }

  /** The index of the header row: the first row with text that passes the
      header test. */
  function FirstHeader(rows: seq<Row>): (h: Option<nat>)
    ensures h.Some? ==> h.value < |rows| && AnyText(rows[h.value]) && IsHeader(rows[h.value])
    ensures h.Some? ==> forall j | 0 <= j < h.value :: !(AnyText(rows[j]) && IsHeader(rows[j]))
    ensures h.None? ==> forall j | 0 <= j < |rows| :: !(AnyText(rows[j]) && IsHeader(rows[j]))
    decreases |rows|
  {
    if rows == [] then None
    else if AnyText(rows[0]) && IsHeader(rows[0]) then Some(0)
    else match FirstHeader(rows[1..])
      case None => None
      case Some(h) => Some(h + 1)
  }

  /** After the header every row with text and two cells is kept, and no other. */
  lemma {:induction false} ScanAfterHeader(rows: seq<Row>, firstPage: bool)
    ensures Scan(rows, true, firstPage) == DataRows(rows)
    decreases |rows|
  {
    if rows != [] {
      ScanAfterHeader(rows[1..], firstPage);
    }
  }

  /** A page yields nothing before its header row, the header itself only on
      the first page, and then exactly its data rows. */
  lemma {:induction false} PageRowsShape(rows: seq<Row>, firstPage: bool)
    ensures PageRows(rows, firstPage) == match FirstHeader(rows)
      case None => []
      case Some(h) => (if firstPage then [rows[h]] else []) + DataRows(rows[h + 1..])
    decreases |rows|
  {
    if rows != [] {
      PageRowsShape(rows[1..], firstPage);
      var r := rows[0];
      if AnyText(r) && IsHeader(r) {
        ScanAfterHeader(rows[1..], firstPage);
      } else {
        assert r == [] || !AnyText(r) || !IsHeader(r);
        match FirstHeader(rows[1..])
        case None =>
        case Some(h) =>
          assert rows[1..][h + 1..] == rows[h + 2..];
      }
    }
  }

  // ----- the pagination text -----

  /** A match of `Page (\d+) of (\d+)` at `p`, with the values of its two
      groups (`\d+` is greedy, and the first group is followed by a space, so
      each group is a whole digit run). */
  function PageMatchAt(s: string, p: nat): (m: Option<(nat, nat)>)
    ensures m.Some? ==> OccursAt(s, "Page ", p)
  {
    if OccursAt(s, "Page ", p) then
      var a := DigitRun(s[p + 5..]);
      if a >= 1 && OccursAt(s, " of ", p + 5 + a) then
        var b := DigitRun(s[p + 9 + a..]);
        if b >= 1 then Some((DigitsValue(s[p + 5..][..a]), DigitsValue(s[p + 9 + a..][..b])))
        else None
      else None
    else None
  }

  /** `re.search(...)` from `p` on: the leftmost match. */
  function SearchPageFrom(s: string, p: nat): (m: Option<(nat, nat)>)
    ensures m.None? ==> forall q | p <= q :: PageMatchAt(s, q).None?
    ensures m.Some? ==> exists q | p <= q :: PageMatchAt(s, q) == m
    decreases |s| - p
  {
    if p + 5 > |s| then
      assert forall q | p <= q :: !OccursAt(s, "Page ", q);
      None
    else if PageMatchAt(s, p).Some? then PageMatchAt(s, p)
    else SearchPageFrom(s, p + 1)
  }

  function SearchPage(s: string): Option<(nat, nat)> {
    SearchPageFrom(s, 0)
  }

  /** `get_pagination_info`: the first text node the pattern matches in,
      and the numbers of its leftmost match; `None` stands for `(None, None)`. */
  function PageInfo(texts: seq<string>): (info: Option<(nat, nat)>)
    ensures info.None? ==> forall k | 0 <= k < |texts| :: SearchPage(texts[k]).None?
    decreases |texts|
  {
    if texts == [] then None
    else if SearchPage(texts[0]).Some? then SearchPage(texts[0])
    else PageInfo(texts[1..])
  }

  /** The first text node holding a match decides the page numbers. */
  lemma {:induction false} PageInfoAt(texts: seq<string>, k: nat)
    requires k < |texts| && SearchPage(texts[k]).Some?
    requires forall j | 0 <= j < k :: SearchPage(texts[j]).None?
    ensures PageInfo(texts) == SearchPage(texts[k])
    decreases k
  {
    if k > 0 {
      assert texts[1..][k - 1] == texts[k];
      assert forall j | 0 <= j < k - 1 :: texts[1..][j] == texts[j + 1];
      PageInfoAt(texts[1..], k - 1);
    }
  }

  /** The text the site shows in its pager. */
  function PageText(n: nat, m: nat): string {
    "Page " + NatText(n) + " of " + NatText(m)
  }

  /** The pager text of page `n` of `m` is read back as `(n, m)`. */
  lemma PageTextRoundTrip(n: nat, m: nat)
    ensures SearchPage(PageText(n, m)) == Some((n, m))
  {
    var s := PageText(n, m);
    var dn, dm := NatText(n), NatText(m);
    assert OccursAt(s, "Page ", 0);
    assert s[5..] == dn + (" of " + dm);
    DigitRunOf(dn, " of " + dm);
    assert s[5 + |dn|..5 + |dn| + 4] == " of ";
    assert s[9 + |dn|..] == dm + [];
    DigitRunOf(dm, []);
    assert s[5..][..|dn|] == dn;
    assert s[9 + |dn|..][..|dm|] == dm;
    NatTextValue(n);
    NatTextValue(m);
  }

  // ----- navigation -----

  /** What one reading of the page number after a click means: `new_page and
      new_page > old_page`, where a page number with no old one to compare
      with raises `TypeError`. */
  datatype Poll = NotYet | Moved(page: nat) | Raises

  function PollResult(before: Option<nat>, after: Option<nat>): Poll {
    if after.None? || after.value == 0 then NotYet
    else if before.None? then Raises
    else if after.value > before.value then Moved(after.value)
    else NotYet
  }

  /** A poll moves exactly when both numbers were read and the new one is
      greater. */
  lemma PollMovesForward(before: Option<nat>, after: Option<nat>)
    ensures PollResult(before, after).Moved?
            <==> before.Some? && after.Some? && after.value > before.value
    ensures PollResult(before, after).Moved? ==> PollResult(before, after).page == after.value
  {
  }

  /** One attempt at "Next": no next link at all, a lookup or click that
      raised, or a click followed by the page numbers read while waiting. */
  datatype Attempt = NoNextLink | ClickFails | Clicked(before: Option<nat>, polls: seq<Option<nat>>)

  /** How an attempt ends: give up (no link), try again, or arrive at a page. */
  datatype AttemptEnd = GiveUp | Retry | Arrived(page: nat)

  /** The waiting loop: the first poll that moves, `Retry` when one raises or
      the time runs out. */
  function WaitFrom(before: Option<nat>, polls: seq<Option<nat>>): (e: AttemptEnd)
    ensures e.Arrived? ==> before.Some? && e.page > before.value && Some(e.page) in polls
    ensures !e.GiveUp?
    decreases |polls|
  {
    if polls == [] then Retry
    else match PollResult(before, polls[0])
      case Moved(p) => Arrived(p)
      case Raises => Retry
      case NotYet => WaitFrom(before, polls[1..])
  }

  function AttemptOutcome(a: Attempt): AttemptEnd {
    match a
    case NoNextLink => GiveUp
    case ClickFails => Retry
    case Clicked(before, polls) => WaitFrom(before, polls)
  }

  /** The quick test's navigation: one click, one reading after it. */
  function QuickNavigate(hasNext: bool, before: Option<nat>, after: Option<nat>): (page: Option<nat>)
    ensures page.Some? <==> hasNext && before.Some? && after.Some? && after.value > before.value
    ensures page.Some? ==> page.value == after.value
  {
    if !hasNext then None
    else match PollResult(before, after)
      case Moved(p) => Some(p)
      case _ => None
  }

  // ----- header promotion -----

  /** The spreadsheet `save_to_excel` writes: column names (`None` keeps the
      default numbered columns) and body rows. */
  datatype Sheet = Sheet(columns: Option<Row>, body: seq<Row>)

  /** "If first row looks like headers, use it." */
  function Promote(data: seq<Row>): (sheet: Sheet)
    ensures sheet.columns.Some? <==> data != [] && IsHeader(data[0])
  {
    if data != [] && IsHeader(data[0]) then Sheet(Some(data[0]), data[1..]) else Sheet(None, data)
  }

  /** The rows a sheet shows, its header first. */
  function Rows(sheet: Sheet): seq<Row> {
    (if sheet.columns.Some? then [sheet.columns.value] else []) + sheet.body
  }

  /** Promotion loses and reorders nothing. */
  lemma PromoteRoundTrip(data: seq<Row>)
    ensures Rows(Promote(data)) == data
  {
    if data != [] && IsHeader(data[0]) {
      assert data == [data[0]] + data[1..];
    }
  }
}
