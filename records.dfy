/** One judicial officer's record as the v1, v4 and v6 scripts build it from a
    row of a district's officer table and the officer's detail modal. */
module OfficerRecords {
  import opened Common
  import opened PyStr
  import opened DetailParser

  /** A record is a Python dict from column name to cell text. */
  type Record = map<string, string>

  /** The sentinel for a value that was not found. */
  const NA: string := "N/A"

  /** v1 and v4 build ten fields; v6 adds an eleventh, "Officer ID". */
  datatype Schema = TenFields | ElevenFields

  /** The record's columns in the order of the dict literal. */
  function Columns(schema: Schema): seq<string> {
    ["S.No", "Name", Key(Designation), Key(PresentPosting), Key(Relative), Key(JoinInJudicial),
     Key(CurrentDistrict), Key(CurrentTaluka), Key(Email), "District"]
    + (if schema == ElevenFields then ["Officer ID"] else [])
  }

  /** `personal_details.get(key, "N/A")` */
  function DetailOr(details: map<string, string>, f: Field): string {
    if Key(f) in details then details[Key(f)] else NA
  }

  /** The `officer_data` dict literal. */
  function BuildRecord(schema: Schema, serial: string, name: string, details: map<string, string>,
                       district: string, officerId: string): (r: Record)
    ensures r.Keys == ColumnSet(schema)
  {
    var base := map["S.No" := serial, "Name" := name,
                    Key(Designation) := DetailOr(details, Designation),
                    Key(PresentPosting) := DetailOr(details, PresentPosting),
                    Key(Relative) := DetailOr(details, Relative),
                    Key(JoinInJudicial) := DetailOr(details, JoinInJudicial),
                    Key(CurrentDistrict) := DetailOr(details, CurrentDistrict),
                    Key(CurrentTaluka) := DetailOr(details, CurrentTaluka),
                    Key(Email) := DetailOr(details, Email),
                    "District" := district];
    if schema == ElevenFields then base["Officer ID" := officerId] else base
  }

  /** The record holds the row's serial number, the officer's name, the
      district and (in v6) the officer id. */
  lemma BuildRecordFixedFields(schema: Schema, serial: string, name: string, details: map<string, string>,
                               district: string, officerId: string)
    ensures var r := BuildRecord(schema, serial, name, details, district, officerId);
            r["S.No"] == serial && r["Name"] == name && r["District"] == district
            && (schema == ElevenFields ==> r["Officer ID"] == officerId)
  {
  }

  /** Each detail field holds the parsed value, or the sentinel when the modal
      did not give it. */
  lemma BuildRecordDetail(schema: Schema, serial: string, name: string, details: map<string, string>,
                          district: string, officerId: string, f: Field)
    ensures var r := BuildRecord(schema, serial, name, details, district, officerId);
            r[Key(f)] == (if Key(f) in details then details[Key(f)] else NA)
  {
  }

  /** The match of `jinfo\('(\d+)'\)` starting at `p`, if there is one: the
      length of its digit group (`\d+` is greedy and is followed by a quote,
      so the group is the whole digit run). */
  function JinfoAt(s: string, p: nat): (n: Option<nat>)
    ensures n.Some? ==> p + 7 + n.value + 2 <= |s| && n.value >= 1
  {
    if OccursAt(s, "jinfo('", p) then
      var n := DigitRun(s[p + 7..]);
      if n >= 1 && OccursAt(s, "')", p + 7 + n) then Some(n) else None
    else None
  }

  /** `re.search(...)` from position `p` onwards: the group of the leftmost match. */
  function JinfoFrom(s: string, p: nat): (id: Option<string>)
    ensures id.Some? ==> id.value != [] && AllDigits(id.value)
    ensures id.None? ==> forall q | p <= q :: JinfoAt(s, q).None?
    decreases |s| - p
  {
    if p + 7 > |s| then
      assert forall q | p <= q :: !OccursAt(s, "jinfo('", q);
      None
    else match JinfoAt(s, p)
      case Some(n) =>
        assert s[p + 7..p + 7 + n] == s[p + 7..][..n];
        Some(s[p + 7..p + 7 + n])
      case None => JinfoFrom(s, p + 1)
  }

  /** `re.search(r"jinfo\('(\d+)'\)", onclick).group(1)`, `None` where the
      search finds nothing (and `.group` then raises). */
  function SearchJinfo(onclick: string): (id: Option<string>)
    ensures id.Some? ==> id.value != [] && AllDigits(id.value)
    ensures id.None? ==> forall q :: JinfoAt(onclick, q).None?
  {
    JinfoFrom(onclick, 0)
  }

  /** What an officer link's `onclick` holds for an officer with id `id`. */
  function OnClick(id: string): string {
    "jinfo('" + id + "')"
  }

  /** The time the row's link is clicked, the id the script passes on is the
      one written into the link. */
  lemma SearchJinfoRoundTrip(id: string)
    requires id != [] && AllDigits(id)
    ensures SearchJinfo(OnClick(id)) == Some(id)
  {
    var s := OnClick(id);
    assert s[7..] == id + "')";
    DigitRunOf(id, "')");
    assert s[7 + |id|..7 + |id| + 2] == "')";
    assert OccursAt(s, "jinfo('", 0);
    assert s[7..7 + |id|] == id;
  }

  /** The officer link in a row's second cell. */
  datatype Link = Link(text: string, onclick: Option<string>)

  /** One `tr` of a district's officer table: its cell texts, the link found in
      `cells[1]` (`None` when there is no `a` element), and the text of the
      officer's detail modal (`None` when it could not be opened). */
  datatype OfficerRow = OfficerRow(cells: seq<string>, link: Option<Link>, modal: Option<string>)

  /** The body of the per-row `try`: the row's record, or `None` when the row is
      skipped (fewer than two cells) or raised (no link, no `onclick`
      attribute, no `jinfo` id in it). */
  function RowRecord(schema: Schema, row: OfficerRow, district: string): Option<Record> {
    if |row.cells| < 2 then None
    else if row.link.None? || row.link.value.onclick.None? then None
    else match SearchJinfo(row.link.value.onclick.value)
      case None => None
      case Some(id) => Some(BuildRecord(schema, row.cells[0], row.link.value.text, Details(row.modal), district, id))
  }

  /** `district_officers`: the records of the rows that did not fail, in order. */
  function DistrictRecords(schema: Schema, rows: seq<OfficerRow>, district: string): seq<Record>
    decreases |rows|
  {
    if rows == [] then []
    else
      var init := DistrictRecords(schema, rows[..|rows| - 1], district);
      match RowRecord(schema, rows[|rows| - 1], district)
      case None => init
      case Some(r) => init + [r]
  }

  /** The per-row loop of one district. */
  method ExtractDistrict(schema: Schema, rows: seq<OfficerRow>, district: string)
    returns (officers: seq<Record>)
    ensures officers == DistrictRecords(schema, rows, district)
  {
    officers := [];
    var i := 0;
    while i < |rows|
      invariant 0 <= i <= |rows|
      invariant officers == DistrictRecords(schema, rows[..i], district)
    {
      var row := rows[i];
      assert rows[..i + 1][..i] == rows[..i];
      if |row.cells| >= 2 && row.link.Some? && row.link.value.onclick.Some? {
        var id := SearchJinfo(row.link.value.onclick.value);
        if id.Some? {
          var personal := GetOfficerDetails(row.modal);
          var record := BuildRecord(schema, row.cells[0], row.link.value.text, personal, district, id.value);
          officers := officers + [record];
        }
      }
      i := i + 1;
    }
    assert rows[..i] == rows;
  }

  /** The columns a record of the schema holds. */
  function ColumnSet(schema: Schema): set<string> {
    {"S.No", "Name", Key(Designation), Key(PresentPosting), Key(Relative), Key(JoinInJudicial),
     Key(CurrentDistrict), Key(CurrentTaluka), Key(Email), "District"}
    + (if schema == ElevenFields then {"Officer ID"} else {})
  }

  /** A well-formed record of a district: every column of the schema and no
      other, the district's name in "District", a digit id in "Officer ID". */
  predicate WellFormed(schema: Schema, r: Record, district: string) {
    r.Keys == ColumnSet(schema) && r["District"] == district
    && (schema == ElevenFields ==> r["Officer ID"] != [] && AllDigits(r["Officer ID"]))
  }

  /** Every record a district produces is well formed. */
  lemma {:induction false} DistrictRecordsWellFormed(schema: Schema, rows: seq<OfficerRow>, district: string)
    ensures forall r | r in DistrictRecords(schema, rows, district) :: WellFormed(schema, r, district)
    decreases |rows|
  {
    if rows != [] {
      DistrictRecordsWellFormed(schema, rows[..|rows| - 1], district);
      var row := rows[|rows| - 1];
      if RowRecord(schema, row, district).Some? {
        var id := SearchJinfo(row.link.value.onclick.value).value;
        BuildRecordFixedFields(schema, row.cells[0], row.link.value.text, Details(row.modal), district, id);
      }
    }
  }

  /** A record holds the modal's value for each detail it parsed and the
      sentinel for each it did not. */
  lemma RowRecordDetails(schema: Schema, row: OfficerRow, district: string, f: Field)
    requires RowRecord(schema, row, district).Some?
    ensures var r := RowRecord(schema, row, district).value;
            var d := Details(row.modal);
            r[Key(f)] == (if Key(f) in d then d[Key(f)] else NA)
            && r["Name"] == row.link.value.text && r["S.No"] == row.cells[0]
  {
    var id := SearchJinfo(row.link.value.onclick.value).value;
    BuildRecordDetail(schema, row.cells[0], row.link.value.text, Details(row.modal), district, id, f);
    BuildRecordFixedFields(schema, row.cells[0], row.link.value.text, Details(row.modal), district, id);
  }

  /** A district's records are those of its rows taken in order: the records
      of two runs of rows are the records of each, concatenated. */
  lemma {:induction false} DistrictRecordsAppend(schema: Schema, a: seq<OfficerRow>, b: seq<OfficerRow>, district: string)
    ensures DistrictRecords(schema, a + b, district)
            == DistrictRecords(schema, a, district) + DistrictRecords(schema, b, district)
    decreases |b|
  {
    if b == [] {
      assert a + b == a;
    } else {
      var b' := b[..|b| - 1];
      assert (a + b)[..|a + b| - 1] == a + b';
      assert (a + b)[|a + b| - 1] == b[|b| - 1];
      DistrictRecordsAppend(schema, a, b', district);
    }
  }

  /** A district never yields more records than it has rows. */
  lemma {:induction false} DistrictRecordsBound(schema: Schema, rows: seq<OfficerRow>, district: string)
    ensures |DistrictRecords(schema, rows, district)| <= |rows|
    decreases |rows|
  {
    if rows != [] {
      DistrictRecordsBound(schema, rows[..|rows| - 1], district);
    }
  }
}
