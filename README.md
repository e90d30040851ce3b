# Judicial-officer and PIB scrapers: a verified Dafny model

The repository holds browser-driven scrapers. One family of scripts (v1, v4 and v6) walks the
district dropdown of the Madhya Pradesh High Court "judicial officers" page. For each officer row it
opens the officer's detail modal, builds a record and writes the records to an Excel workbook. Versions
4 and 6 add a resume menu, three merge modes, de-duplication and a state file holding the last
finished district. The other family (the PIB accreditation extractors) pages through a 191-page
table, keeps data rows, saves progress every ten pages and writes one workbook.

This model keeps the sequential logic under the browser plumbing. Everything the browser shows is an
input:
- the rows of a table, as cell texts;
- the text of a detail modal;
- the dropdown's district names;
- the page numbers read before and after a click;
- whether a wait, a click or a save raised.

The user's menu answers are a sequence of strings. The workbook and the state files are fields of a
class or values of the model.

Modules, one per file:
- `Common` (common.dfy): `Option` and a concatenation lemma.
- `PyStr` (pystr.dfy): the Python string semantics the scripts rely on. This covers `strip`,
  `split(sep)[-1]`, `in`, `upper`, `str(int)` and `int(str)`, and the digit runs of the two regular
  expressions.
- `DetailParser` (details.dfy): the `elif` chain that turns modal lines into detail fields.
- `OfficerRecords` (records.dfy): the record dictionary of each row (10 fields in v1 and v4, 11 in v6
  with "Officer ID"), the `jinfo('…')` id capture, and a district's record list.
- `Dedup` (dedup.dfy): `remove_duplicates_from_data`.
- `MergeModes` (merge.dfy): the fill-missing and resume merges.
- `Checkpoint` (checkpoint.dfy): the state file's text, the resume index and `get_user_choice`.
- `JudicialRun` (judicial_run.dfy): `extract_judicial_officers` of v4 and v6 with `save_data` and the
  clean-up on success. The two files are the class `Workspace`.
- `FirstVersion` (v1_run.dfy): the v1 district loop, capped at five districts.
- `PibPage` (pib_page.dfy): row filters, header detection, the `Page N of M` parser, the
  navigation rules and header promotion.
- `PibFull` (pib_full.dfy): the class `PIBFullExtractor` of `extract_full_selenium.py`.
- `PibQuick` (pib_quick.dfy): the class `PIBQuickTest` of `extract_quick_test.py`.

Imperative code is modelled as methods with loops, proved equal to a specification function. The
properties the scripts promise are then proved as lemmas about those functions.

Some source behaviour is kept exactly as written:
- Python's negative list index for a negative resume index.
- The `NameError` raised when the first district fails before `district_name` is bound.
- The `TypeError` of comparing a page number with `None`.
- The `ZeroDivisionError` of the full extractor's progress report, when a checkpoint page's
  `pages_processed` is zero.
- The fact that the header test's `'SL.No'` branch can never match an upper-cased cell.

## Model

| member | source | states |
|---|---|---|
| PyStr.LStrip | Python/Extract-Data-Using-Selenium/code/v6/extraction.py:104 | the result does not start with whitespace |
| PyStr.RStrip | Python/Extract-Data-Using-Selenium/code/v6/extraction.py:104 | the result is a prefix of the input and does not end with whitespace |
| PyStr.Strip | Python/Extract-Data-Using-Selenium/code/v6/extraction.py:104 | the result has whitespace at neither end |
| PyStr.LStripShape | Python/Extract-Data-Using-Selenium/code/v6/extraction.py:104 | `lstrip` removes exactly a leading run of whitespace: the result is a suffix and what was cut is all whitespace |
| PyStr.RStripShape | Python/Extract-Data-Using-Selenium/code/v6/extraction.py:104 | what `rstrip` cuts from the back is all whitespace |
| PyStr.StripShape | Python/Extract-Data-Using-Selenium/code/v6/extraction.py:104 | the stripped text is a contiguous slice of the input |
| PyStr.StripKeeps | Python/Extract-Data-Using-Selenium/code/v6/extraction.py:104 | a string with no whitespace at either end is its own strip |
| PyStr.StripIdempotent | Python/Extract-Data-Using-Selenium/code/v6/extraction.py:104 | stripping twice is stripping once |
| PyStr.StripIgnoresSpace | Python/Extract-Data-Using-Selenium/code/v6/extraction.py:104 | adding whitespace on either side of a text does not change its strip |
| PyStr.FindFrom | Python/Extract-Data-Using-Selenium/code/v6/extraction.py:107-119 | the first occurrence of the substring at or after the start position, or none at all |
| PyStr.IndexOf | Python/Extract-Data-Using-Selenium/code/v6/extraction.py:107-119 | the first occurrence, and `None` exactly when `sub in s` is false |
| PyStr.Split | Python/Extract-Data-Using-Selenium/code/v6/extraction.py:108 | `split` gives at least one piece |
| PyStr.SplitStep | Python/Extract-Data-Using-Selenium/code/v6/extraction.py:108 | the split is the piece before the first separator followed by the split of the rest |
| PyStr.SplitJoin | Python/Extract-Data-Using-Selenium/code/v6/extraction.py:108 | joining the pieces with the separator gives back the string |
| PyStr.SplitPiecesAvoidSep | Python/Extract-Data-Using-Selenium/code/v6/extraction.py:108 | no piece contains the separator |
| PyStr.AfterLastIsTextAfterLabel | Python/Extract-Data-Using-Selenium/code/v6/extraction.py:108-120 | `split(label)[-1]` is the suffix after the last occurrence of the label and does not contain it; it is the whole line when the label is absent |
| PyStr.AfterLastSuffix | Python/Extract-Data-Using-Selenium/code/v6/extraction.py:108 | the last piece is a suffix of the line: the whole line when the label is absent, otherwise preceded by the label |
| PyStr.AfterLastStep | Python/Extract-Data-Using-Selenium/code/v6/extraction.py:108 | the last piece is unchanged by dropping everything up to the first separator |
| PyStr.OccursShifted | Python/Extract-Data-Using-Selenium/code/v6/extraction.py:108 | an occurrence in a suffix is an occurrence in the string |
| PyStr.Upper | Python/Extract-PIB-Data/extract_full_selenium.py:199 | `upper` maps each character by itself and keeps the length |
| PyStr.UpperNeverContainsSlNo | Python/Extract-PIB-Data/extract_full_selenium.py:199 | an upper-cased text never contains `SL.No` |
| PyStr.DigitRun | Python/Extract-Data-Using-Selenium/code/v6/extraction.py:311 | the greedy `\d+` run: all digits, followed by a non-digit or the end |
| PyStr.DigitRunOf | Python/Extract-Data-Using-Selenium/code/v6/extraction.py:311 | digits followed by a non-digit are exactly one run |
| PyStr.DigitChar | Python/Extract-Data-Using-Selenium/code/v6/extraction.py:373 | the digit character of a value below ten has that value |
| PyStr.NatText | Python/Extract-Data-Using-Selenium/code/v6/extraction.py:373 | `str(n)` of a natural number is a non-empty digit string |
| PyStr.NatTextValue | Python/Extract-Data-Using-Selenium/code/v6/extraction.py:373 | `int(str(n)) == n` for natural numbers |
| PyStr.ParseIntIgnoresSpace | Python/Extract-Data-Using-Selenium/code/v6/extraction.py:260 | `int()` gives the same result with whitespace added on either side, and after an explicit `strip()` |
| PyStr.IntTextRoundTrip | Python/Extract-Data-Using-Selenium/code/v6/extraction.py:260-261 | `int(str(i)) == i` for every integer, including a leading minus |
| DetailParser.KeyInjective | Python/Extract-Data-Using-Selenium/code/v6/extraction.py:106-120 | the seven fields are stored under seven distinct keys |
| DetailParser.ClassifyIsFirstMention | Python/Extract-Data-Using-Selenium/code/v6/extraction.py:106-120 | a line goes to a field exactly when it mentions that field's keyword and none earlier in the `elif` order; it goes nowhere exactly when it mentions none |
| DetailParser.NonBlank | Python/Extract-Data-Using-Selenium/code/v6/extraction.py:104 | the kept lines are non-empty and already stripped, and there are at most as many as pieces |
| DetailParser.ParseStep | Python/Extract-Data-Using-Selenium/code/v6/extraction.py:106-120 | the dictionary after a line is the dictionary before it with that line's assignment |
| DetailParser.GetOfficerDetails | Python/Extract-Data-Using-Selenium/code/v6/extraction.py:76-125 | the details of the modal text, and the empty dictionary when the modal could not be read |
| DetailParser.ParseLines | Python/Extract-Data-Using-Selenium/code/v6/extraction.py:106-120 | the line loop builds exactly the reference dictionary `Parse`; v4 runs the same loop (`v4/extraction.py` lines 72-86); v1 runs the same loop (`v1/extraction.py` lines 212-233) |
| DetailParser.AssignDomain | Python/Extract-Data-Using-Selenium/code/v6/extraction.py:106-120 | one line adds its own field's key and no other |
| DetailParser.ParseDomain | Python/Extract-Data-Using-Selenium/code/v6/extraction.py:106-120 | a field is present exactly when some line was assigned to it |
| DetailParser.ParseKeysAreDetailKeys | Python/Extract-Data-Using-Selenium/code/v6/extraction.py:106-120 | the dictionary holds only the seven detail keys |
| DetailParser.ParseLastLineWins | Python/Extract-Data-Using-Selenium/code/v6/extraction.py:106-120 | a field's value is the text after the label on the last line assigned to it |
| OfficerRecords.BuildRecord | Python/Extract-Data-Using-Selenium/code/v6/extraction.py:318-330 | the record has exactly the schema's columns: ten, or eleven with "Officer ID"; the v4 record has the ten columns and no "Officer ID" (`v4/extraction.py` lines 257-268) |
| OfficerRecords.BuildRecordFixedFields | Python/Extract-Data-Using-Selenium/code/v6/extraction.py:318-330 | serial number, name, district and (v6) officer id are stored as given |
| OfficerRecords.BuildRecordDetail | Python/Extract-Data-Using-Selenium/code/v6/extraction.py:321-327 | each detail column holds the parsed value, or "N/A" when it was not parsed |
| OfficerRecords.JinfoAt | Python/Extract-Data-Using-Selenium/code/v6/extraction.py:311 | a match of `jinfo('(\d+)')` lies inside the text and has at least one digit |
| OfficerRecords.JinfoFrom | Python/Extract-Data-Using-Selenium/code/v6/extraction.py:311 | the captured id is a non-empty digit string; `None` only when no position matches |
| OfficerRecords.SearchJinfo | Python/Extract-Data-Using-Selenium/code/v6/extraction.py:311 | the same for the whole `onclick` text; `None` (the `AttributeError` path) exactly when nothing matches |
| OfficerRecords.SearchJinfoRoundTrip | Python/Extract-Data-Using-Selenium/code/v6/extraction.py:311 | the id written into `jinfo('…')` is read back unchanged |
| OfficerRecords.ExtractDistrict | Python/Extract-Data-Using-Selenium/code/v6/extraction.py:302-335 | the row loop gives the records of the rows that did not fail, in order |
| OfficerRecords.DistrictRecordsWellFormed | Python/Extract-Data-Using-Selenium/code/v6/extraction.py:318-330 | every record of a district has every column and that district's name |
| OfficerRecords.RowRecordDetails | Python/Extract-Data-Using-Selenium/code/v6/extraction.py:321-327 | a row's record holds the modal's parsed value for each detail, else "N/A" |
| OfficerRecords.DistrictRecordsAppend | Python/Extract-Data-Using-Selenium/code/v6/extraction.py:302-335 | the records of concatenated rows are the concatenated records |
| OfficerRecords.DistrictRecordsBound | Python/Extract-Data-Using-Selenium/code/v6/extraction.py:302-335 | a district never yields more records than rows |
| Dedup.KeysOfSnoc | Python/Extract-Data-Using-Selenium/code/v6/extraction.py:142-147 | adding a record adds its key to `seen` |
| Dedup.KeysOfMembers | Python/Extract-Data-Using-Selenium/code/v6/extraction.py:143 | a key is among the keys exactly when some record has it |
| Dedup.KeysOfHas | Python/Extract-Data-Using-Selenium/code/v6/extraction.py:143 | each record's key is among the keys |
| Dedup.RemoveDuplicates | Python/Extract-Data-Using-Selenium/code/v6/extraction.py:133-153 | the loop returns the keep-first list, and the duplicate count is input length minus output length; v4 runs the same loop (`v4/extraction.py` lines 99-119) |
| Dedup.LastKeyIsNew | Python/Extract-Data-Using-Selenium/code/v6/extraction.py:144-146 | in a duplicate-free list the last key does not occur before it |
| Dedup.KeepFirstKeys | Python/Extract-Data-Using-Selenium/code/v6/extraction.py:133-153 | the output has one record per key and exactly the input's keys |
| Dedup.KeepFirstIsFirstsOf | Python/Extract-Data-Using-Selenium/code/v6/extraction.py:133-153 | the output is exactly the records that are first of their key, in input order |
| Dedup.KeepFirstOfUnique | Python/Extract-Data-Using-Selenium/code/v6/extraction.py:133-153 | a list without repeated keys is returned unchanged |
| Dedup.KeepFirstIdempotent | Python/Extract-Data-Using-Selenium/code/v6/extraction.py:133-153 | de-duplicating twice is de-duplicating once |
| Dedup.KeepFirstCount | Python/Extract-Data-Using-Selenium/code/v6/extraction.py:133-153 | the number kept is the number of distinct keys |
| Dedup.UniqueKeysCount | Python/Extract-Data-Using-Selenium/code/v6/extraction.py:133-153 | a duplicate-free list has as many keys as records |
| MergeModes.ScanFrom | Python/Extract-Data-Using-Selenium/code/v6/extraction.py:344-351 | the scan stops at the first record with the key, or at the first record missing Name or District (the `KeyError`), and every record before the stop has neither |
| MergeModes.PatchSentinels | Python/Extract-Data-Using-Selenium/code/v6/extraction.py:347-349 | the in-place patch loop gives exactly `Patch` |
| MergeModes.PatchOnlySentinels | Python/Extract-Data-Using-Selenium/code/v6/extraction.py:347-349 | the patch keeps the record's keys and every non-"N/A" value; an "N/A" value takes the incoming value when there is one |
| MergeModes.PatchIdempotent | Python/Extract-Data-Using-Selenium/code/v6/extraction.py:347-349 | patching twice with the same officer is patching once |
| MergeModes.PatchKeepsKey | Python/Extract-Data-Using-Selenium/code/v6/extraction.py:344-351 | the matched record keeps its Name and District |
| MergeModes.FillMissingMerge | Python/Extract-Data-Using-Selenium/code/v6/extraction.py:340-353 | the fill-missing loop: each officer patches its first match or is appended; a `KeyError` stops the merge and leaves what was done so far; v4 runs the same merge (`v4/extraction.py` lines 278-291) |
| MergeModes.FillMissingStops | Python/Extract-Data-Using-Selenium/code/v6/extraction.py:340-353 | a failure at one officer ends the merge there, reported as not ok |
| MergeModes.PatchRefines | Python/Extract-Data-Using-Selenium/code/v6/extraction.py:347-349 | the patched record refines the old one: same keys, only "N/A" values change |
| MergeModes.FillOneExtends | Python/Extract-Data-Using-Selenium/code/v6/extraction.py:341-353 | one officer leaves every old record in place, refined, and at most appends |
| MergeModes.ExtendsTransitive | Python/Extract-Data-Using-Selenium/code/v6/extraction.py:341-353 | refining-and-appending composes |
| MergeModes.FillMissingExtends | Python/Extract-Data-Using-Selenium/code/v6/extraction.py:340-353 | whether or not it finishes, the merge only fills sentinels and appends |
| MergeModes.FillMissingKeepsComplete | Python/Extract-Data-Using-Selenium/code/v6/extraction.py:340-353 | records with no `"N/A"` field come out of the merge unchanged and in place; the merge only appends after them |
| MergeModes.FillOneKeepsUnique | Python/Extract-Data-Using-Selenium/code/v6/extraction.py:341-353 | on keyed, duplicate-free data an officer with a key never raises, and the list stays keyed and duplicate-free and holds the officer's key |
| MergeModes.KeysStay | Python/Extract-Data-Using-Selenium/code/v6/extraction.py:341-353 | a key present before is present after a key-preserving extension |
| MergeModes.FillMissingKeepsUnique | Python/Extract-Data-Using-Selenium/code/v6/extraction.py:340-353 | on keyed, duplicate-free data the merge finishes, stays duplicate-free, and holds every officer's key |
| MergeModes.FiltersAppend | Python/Extract-Data-Using-Selenium/code/v6/extraction.py:357 | the district filters distribute over concatenation |
| MergeModes.FiltersOfOneDistrict | Python/Extract-Data-Using-Selenium/code/v6/extraction.py:357 | filtering a single district's batch keeps all of it or none of it |
| MergeModes.PurgeLeavesNone | Python/Extract-Data-Using-Selenium/code/v6/extraction.py:357 | after the purge no record of the district remains, and purging again changes nothing |
| MergeModes.PurgeKeepsOthers | Python/Extract-Data-Using-Selenium/code/v6/extraction.py:357 | the purge keeps every other district's records in order |
| MergeModes.ResumeDistrictExact | Python/Extract-Data-Using-Selenium/code/v6/extraction.py:354-363 | after a resume merge the district's records are exactly its fresh batch, which ends the list; v4 runs the same merge (`v4/extraction.py` lines 292-301) |
| MergeModes.ResumeKeepsOthers | Python/Extract-Data-Using-Selenium/code/v6/extraction.py:354-363 | other districts' records keep their order and content |
| MergeModes.ResumeTwice | Python/Extract-Data-Using-Selenium/code/v4/extraction.py:292-301 | re-processing a district leaves only the second batch: no stale or doubled rows |
| Checkpoint.ResumeIndexIgnoresSpace | Python/Extract-Data-Using-Selenium/code/v6/extraction.py:256-267 | whitespace around the stored number (a trailing newline, say) does not move the resume point, and the explicit `strip()` before `int()` changes nothing; v4 reads the state file the same way (`v4/extraction.py` lines 197-208) |
| Checkpoint.ResumeAfterCheckpoint | Python/Extract-Data-Using-Selenium/code/v6/extraction.py:371-373 | a run resumed after the checkpoint of district `idx` starts at `idx + 1` |
| Checkpoint.ChoiceOf | Python/Extract-Data-Using-Selenium/code/v6/extraction.py:182 | an answer is accepted exactly when it is "1", "2" or "3" |
| Checkpoint.ChoiceOfNumber | Python/Extract-Data-Using-Selenium/code/v6/extraction.py:186 | each choice's answer number is read back as that choice |
| Checkpoint.FirstChoice | Python/Extract-Data-Using-Selenium/code/v6/extraction.py:166-186 | the first valid stripped answer and how many answers were read; `None` only when none is valid |
| Checkpoint.FirstChoiceAt | Python/Extract-Data-Using-Selenium/code/v6/extraction.py:181-184 | the first valid answer decides the choice |
| Checkpoint.GetUserChoice | Python/Extract-Data-Using-Selenium/code/v4/extraction.py:146-150 | the re-ask loop returns the reference choice and the number of answers read |
| JudicialRun.Saved | Python/Extract-Data-Using-Selenium/code/v6/extraction.py:155-164 | the file holds only the given records when overwriting or when there was no file; when appending, the existing records in front, unchanged, followed by the given ones |
| JudicialRun.SavedAppendTwice | Python/Extract-Data-Using-Selenium/code/v6/extraction.py:155-164 | two appending saves store what one appending save of both lists stores |
| JudicialRun.SavedOverwriteForgets | Python/Extract-Data-Using-Selenium/code/v6/extraction.py:155-164 | an overwriting save forgets what was saved before |
| JudicialRun.Workspace.constructor | Python/Extract-Data-Using-Selenium/code/v6/extraction.py:238-248 | the workspace starts with the given snapshot and state file |
| JudicialRun.Workspace.SaveData | Python/Extract-Data-Using-Selenium/code/v6/extraction.py:155-164 | the snapshot becomes the `save_data` result; the state file is untouched |
| JudicialRun.Workspace.WriteCheckpoint | Python/Extract-Data-Using-Selenium/code/v6/extraction.py:372-373 | the state file holds `str(idx)`; the snapshot is untouched |
| JudicialRun.Workspace.RemoveStateFile | Python/Extract-Data-Using-Selenium/code/v6/extraction.py:410-415 | the state file is gone; the snapshot is untouched |
| JudicialRun.PyIndex | Python/Extract-Data-Using-Selenium/code/v6/extraction.py:292 | `district_names[idx]` with negative indices: an index it returns is in range and is `idx` or `idx + n`, and it raises `IndexError` (`None`) exactly when `idx` is below `-n` or at least `n` |
| JudicialRun.Prepare | Python/Extract-Data-Using-Selenium/code/v6/extraction.py:238-270 | the menu and loading step gives the reference start: mode, de-duplicated records, state file, start index |
| JudicialRun.VisitDistrict | Python/Extract-Data-Using-Selenium/code/v6/extraction.py:285-385 | one district is exactly one `Step`: merge by mode, then save and checkpoint only when the merge finished and the save succeeded; an earlier failure skips both |
| JudicialRun.VisitDistricts | Python/Extract-Data-Using-Selenium/code/v6/extraction.py:283-373 | the district loop leaves both files, `all_officers` and the escape flag exactly as the reference loop `Iterate` does |
| JudicialRun.ExtractJudicialOfficers | Python/Extract-Data-Using-Selenium/code/v6/extraction.py:201-424 | the run leaves exactly the reference outcome: both files and whether it completed and removed the state file; v4 runs the same loop with the ten-field schema (`v4/extraction.py` lines 152-347) |
| JudicialRun.BatchKeyed | Python/Extract-Data-Using-Selenium/code/v6/extraction.py:318-330 | every record of a district belongs to it and has a Name and a District |
| JudicialRun.StepCheckpoint | Python/Extract-Data-Using-Selenium/code/v6/extraction.py:371-373 | one iteration changes the files only when the district was listed, its merge finished and `save_data` succeeded; then the snapshot holds exactly the merged records and the state file holds `str(idx)`; otherwise neither file changes; v4 saves and checkpoints the same way (`v4/extraction.py` lines 305-308) |
| JudicialRun.IterateCheckpoint | Python/Extract-Data-Using-Selenium/code/v6/extraction.py:283-373 | over any stretch of the loop either neither file changed, or both files still hold what a district `k` of the stretch wrote when it was checkpointed: that iteration was listed, merged fully and saved, the state file names `k`, and the snapshot holds exactly the records as they stood after iteration `k` |
| JudicialRun.ResumeStartsAfterCheckpoint | Python/Extract-Data-Using-Selenium/code/v6/extraction.py:256-264 | resuming from the checkpoint of district `k` starts at `k + 1` on the de-duplicated snapshot |
| JudicialRun.OverwriteStartsFresh | Python/Extract-Data-Using-Selenium/code/v6/extraction.py:250-253 | choice 1 removes the state file and starts at 0 with no records |
| JudicialRun.KeepFirstKeyed | Python/Extract-Data-Using-Selenium/code/v6/extraction.py:254-258 | de-duplicated records that all have Name and District are keyed and duplicate-free |
| JudicialRun.KeepFirstKeyedRecords | Python/Extract-Data-Using-Selenium/code/v6/extraction.py:254-258 | de-duplication keeps every record keyed |
| JudicialRun.FillStep | Python/Extract-Data-Using-Selenium/code/v6/extraction.py:340-353 | in fill-missing mode on keyed, duplicate-free data a district keeps that property and only fills and appends; a listed district that saves is checkpointed |
| JudicialRun.FillModeIterate | Python/Extract-Data-Using-Selenium/code/v6/extraction.py:340-353 | the same over any stretch of the loop |
| JudicialRun.AppendModeIterate | Python/Extract-Data-Using-Selenium/code/v6/extraction.py:364-365 | with no prior file or in overwrite mode, records are only appended |
| JudicialRun.ResumeStep | Python/Extract-Data-Using-Selenium/code/v6/extraction.py:354-363 | in resume mode a listed district ends with exactly its fresh records and every other district is untouched |
| FirstVersion.Reached | Python/Extract-Data-Using-Selenium/code/v1/extraction.py:80-82 | all districts are visited when there are at most five, and exactly five when there are more |
| FirstVersion.ExtractFirstDistricts | Python/Extract-Data-Using-Selenium/code/v1/extraction.py:80-172 | the run writes exactly the reference output: nothing when the page, the first name or the final wait failed, when nothing was extracted or when `to_excel` fails, otherwise the records of the first five districts in order |
| FirstVersion.CollectedPrefix | Python/Extract-Data-Using-Selenium/code/v1/extraction.py:130 | accumulation is append-only: a longer run's records start with a shorter run's |
| FirstVersion.CollectedFromReached | Python/Extract-Data-Using-Selenium/code/v1/extraction.py:99-130 | every saved record comes from a loaded district among the first five and is well formed for it |
| FirstVersion.OutputIgnoresLaterDistricts | Python/Extract-Data-Using-Selenium/code/v1/extraction.py:80-82 | districts after the fifth never affect the output |
| FirstVersion.CollectedAgree | Python/Extract-Data-Using-Selenium/code/v1/extraction.py:80-130 | runs that see the same districts collect the same records |
| PibPage.QuickRows | Python/Extract-PIB-Data/extract_quick_test.py:73-78 | the filter keeps at most the table's rows |
| PibPage.QuickRowsMembers | Python/Extract-PIB-Data/extract_quick_test.py:73-78 | a row is kept exactly when it is in the table and has a non-empty cell |
| PibPage.QuickRowsAppend | Python/Extract-PIB-Data/extract_quick_test.py:73-78 | the filter keeps table order |
| PibPage.HeaderMeansName | Python/Extract-PIB-Data/extract_full_selenium.py:199 | the header test holds exactly when some upper-cased cell contains "NAME" |
| PibPage.ScanStep | Python/Extract-PIB-Data/extract_full_selenium.py:184-207 | the row loop from row `i` is that row's output followed by the loop from `i + 1` |
| PibPage.DataRows | Python/Extract-PIB-Data/extract_full_selenium.py:205-207 | every data row has text and at least two cells |
| PibPage.FirstHeader | Python/Extract-PIB-Data/extract_full_selenium.py:199-203 | the header is the first row with text that passes the header test, or there is none |
| PibPage.ScanAfterHeader | Python/Extract-PIB-Data/extract_full_selenium.py:205-207 | after the header, exactly the rows with text and two cells are emitted |
| PibPage.PageRowsShape | Python/Extract-PIB-Data/extract_full_selenium.py:184-207 | a page yields nothing without a header; otherwise the header only on page 1, then the data rows after it; the rows before it are dropped |
| PibPage.PageMatchAt | Python/Extract-PIB-Data/extract_full_selenium.py:225-233 | a match of `Page (\d+) of (\d+)` starts with "Page " at that position |
| PibPage.SearchPageFrom | Python/Extract-PIB-Data/extract_full_selenium.py:225-233 | the leftmost match, and `None` only when no position matches |
| PibPage.PageInfo | Python/Extract-PIB-Data/extract_full_selenium.py:219-237 | `(None, None)` only when no text node holds a match; the quick test parses pagination the same way (`extract_quick_test.py` lines 87-102) |
| PibPage.PageInfoAt | Python/Extract-PIB-Data/extract_full_selenium.py:225-233 | the first text node holding a match decides the page numbers |
| PibPage.PageTextRoundTrip | Python/Extract-PIB-Data/extract_full_selenium.py:225-233 | the pager text `Page n of m` is read back as `(n, m)` |
| PibPage.PollMovesForward | Python/Extract-PIB-Data/extract_full_selenium.py:264-271 | a poll moves exactly when both numbers were read and the new one is greater, and then to the new number |
| PibPage.WaitFrom | Python/Extract-PIB-Data/extract_full_selenium.py:264-271 | the wait arrives only at a polled page greater than the one before the click, and never gives up navigation by itself |
| PibPage.QuickNavigate | Python/Extract-PIB-Data/extract_quick_test.py:104-127 | quick navigation succeeds exactly when there is a link and the number read after the click exceeds the one before |
| PibPage.Promote | Python/Extract-PIB-Data/extract_full_selenium.py:386-391 | the first row becomes the column names exactly when it passes the header test |
| PibPage.PromoteRoundTrip | Python/Extract-PIB-Data/extract_full_selenium.py:384-391 | promotion loses and reorders no row |
| PibFull.TempFileIsTemp | Python/Extract-PIB-Data/extract_full_selenium.py:138 | every checkpoint data file is one the clean-up removes |
| PibFull.Loaded | Python/Extract-PIB-Data/extract_full_selenium.py:112-132 | `load_progress` changes only the page and the rows; the rows come only from the named data file |
| PibFull.SavedProgress | Python/Extract-PIB-Data/extract_full_selenium.py:134-158 | `save_progress` records the current page and its temp file, and leaves the rows and page alone |
| PibFull.LoadAfterSave | Python/Extract-PIB-Data/extract_full_selenium.py:112-158 | a restart after a checkpoint with data resumes at the checkpointed page with the checkpointed rows |
| PibFull.LoadAfterEmptySave | Python/Extract-PIB-Data/extract_full_selenium.py:112-158 | a checkpoint without data restores only the page |
| PibFull.UniqueAppendGrows | Python/Extract-PIB-Data/extract_full_selenium.py:318-323 | `all_data` never shrinks, keeps its prefix, gains no duplicate, and holds every row of the page |
| PibFull.UniqueAppendFrom | Python/Extract-PIB-Data/extract_full_selenium.py:318-323 | every row after the append was already there or comes from the page |
| PibFull.NavigateForward | Python/Extract-PIB-Data/extract_full_selenium.py:239-281 | navigation succeeds only by polling, after a click, a page number greater than the one read before it, and the page reached is that polled number |
| PibFull.NavigateAtMostThree | Python/Extract-PIB-Data/extract_full_selenium.py:241-243 | no attempt after the third is ever consulted |
| PibFull.Collect | Python/Extract-PIB-Data/extract_full_selenium.py:318-323 | collecting a page leaves the page numbers alone |
| PibFull.Checkpointed | Python/Extract-PIB-Data/extract_full_selenium.py:331-332 | a checkpoint leaves the rows and page numbers alone |
| PibFull.CrawlCadence | Python/Extract-PIB-Data/extract_full_selenium.py:331-341 | progress is saved exactly at the multiples of ten among the pages processed |
| PibFull.ExtractAllSaves | Python/Extract-PIB-Data/extract_full_selenium.py:283-359 | progress is saved at the multiples of ten among the pages processed and then once more, naming the final page and its temp file, unless the loop crashed; a first page that fails to load saves nothing |
| PibFull.CadenceHere | Python/Extract-PIB-Data/extract_full_selenium.py:331-341 | a loop that stops on its page has saved only there |
| PibFull.CadenceOn | Python/Extract-PIB-Data/extract_full_selenium.py:331-341 | one more page adds its own save in front of the rest |
| PibFull.MultiplesStep | Python/Extract-PIB-Data/extract_full_selenium.py:331-332 | the multiples of ten from `a` are `a` itself when it is one, then those from `a + 1` |
| PibFull.CrawlRange | Python/Extract-PIB-Data/extract_full_selenium.py:309-349 | `page_count` runs from its start to `total_pages`, stopping early only for a failed navigation before the last page or the zero-division crash |
| PibFull.CrawlKeepsRows | Python/Extract-PIB-Data/extract_full_selenium.py:309-356 | over the loop `all_data` only grows, keeps its order and gains no duplicate |
| PibFull.CleanedUp | Python/Extract-PIB-Data/extract_full_selenium.py:414-428 | the clean-up removes the progress file and every temp file and keeps every other file and the rows |
| PibFull.RunAllSucceeds | Python/Extract-PIB-Data/extract_full_selenium.py:436-475 | a successful run saved every collected row and left no progress file or temp file |
| PibFull.BlankCrawl | Python/Extract-PIB-Data/extract_full_selenium.py:306-349 | the page loop on a browser that never loaded the site processes the checkpoint page with no rows, does not crash, and leaves the rows and `current_page` as loaded |
| PibFull.ResumedRunKeepsLoaded | Python/Extract-PIB-Data/extract_full_selenium.py:283-374 | a run resumed past page 1 never loads the site (`driver.get` is only called for page 1), so its first page shows no table and no next link: the loop stops after that one page with exactly the loaded rows and page, and the run succeeds, saving exactly the loaded rows, precisely when rows were loaded |
| PibFull.PIBFullExtractor.constructor | Python/Extract-PIB-Data/extract_full_selenium.py:36-59 | the fields start as given, with 191 pages, and `load_progress` has run |
| PibFull.PIBFullExtractor.LoadProgress | Python/Extract-PIB-Data/extract_full_selenium.py:112-132 | the new state is `Loaded` of the old |
| PibFull.PIBFullExtractor.SaveProgress | Python/Extract-PIB-Data/extract_full_selenium.py:134-158 | the new state is `SavedProgress` of the old |
| PibFull.PIBFullExtractor.ExtractDataFromPage | Python/Extract-PIB-Data/extract_full_selenium.py:160-217 | the row loop with `headers_found` returns exactly `PageRows` for the current page |
| PibFull.PIBFullExtractor.AppendUnique | Python/Extract-PIB-Data/extract_full_selenium.py:318-323 | `all_data` becomes the unique append, and `new_records` is the growth |
| PibFull.PIBFullExtractor.NavigateToNextPage | Python/Extract-PIB-Data/extract_full_selenium.py:239-281 | succeeds exactly when the reference navigation does, and only then moves `current_page` to the page reached |
| PibFull.PIBFullExtractor.ExtractAllData | Python/Extract-PIB-Data/extract_full_selenium.py:283-374 | the state and result are those of the reference `extract_all_data`, whose page loop sees the visited pages on a fresh run and blank pages on a resumed one |
| PibFull.PIBFullExtractor.PageStep | Python/Extract-PIB-Data/extract_full_selenium.py:310-354 | one pass of the page loop is one step of `Crawl` |
| PibFull.PIBFullExtractor.CleanupTempFiles | Python/Extract-PIB-Data/extract_full_selenium.py:414-428 | the new state is `CleanedUp` of the old |
| PibFull.PIBFullExtractor.SaveToExcel | Python/Extract-PIB-Data/extract_full_selenium.py:376-412 | the state and result are those of the reference save |
| PibFull.PIBFullExtractor.Run | Python/Extract-PIB-Data/extract_full_selenium.py:436-475 | the state and result are those of the reference `run` |
| PibQuick.PageData | Python/Extract-PIB-Data/extract_quick_test.py:57-85 | no rows on an error path; otherwise a row is returned exactly when it is in the table and has text |
| PibQuick.NextPage | Python/Extract-PIB-Data/extract_quick_test.py:104-127 | navigation succeeds exactly when the click went through and the number after it is greater than the number before; then it returns that number |
| PibQuick.RunFromBound | Python/Extract-PIB-Data/extract_quick_test.py:146-167 | at most `max_pages` pages, at least one when the loop is entered, and fewer only when the last click failed |
| PibQuick.RunFromGathered | Python/Extract-PIB-Data/extract_quick_test.py:154-155 | `all_data` grows by the kept rows of the processed pages, concatenated in page order with no dedup |
| PibQuick.GatheredFrom | Python/Extract-PIB-Data/extract_quick_test.py:73-78 | every gathered row has text and comes from a processed page's table |
| PibQuick.RunFromIgnoresLater | Python/Extract-PIB-Data/extract_quick_test.py:146-148 | pages from `max_pages` on are never looked at |
| PibQuick.ResumedStep | Python/Extract-PIB-Data/extract_quick_test.py:148-167 | one turn of the loop gathers the page and continues only after a successful click |
| PibQuick.ResumedDone | Python/Extract-PIB-Data/extract_quick_test.py:148 | once stopped or past the last page nothing more is gathered |
| PibQuick.PIBQuickTest.constructor | Python/Extract-PIB-Data/extract_quick_test.py:26-31 | no rows, page 1, the given page limit, nothing saved |
| PibQuick.PIBQuickTest.ExtractDataFromPage | Python/Extract-PIB-Data/extract_quick_test.py:57-85 | the row loop returns exactly `PageData` |
| PibQuick.PIBQuickTest.NavigateToNextPage | Python/Extract-PIB-Data/extract_quick_test.py:104-127 | the result is `NextPage`, and `current_page` moves only on success |
| PibQuick.PIBQuickTest.ProcessPage | Python/Extract-PIB-Data/extract_quick_test.py:151-165 | one iteration extends `all_data` with the page's rows and clicks on only when another page is due |
| PibQuick.PIBQuickTest.RunTest | Python/Extract-PIB-Data/extract_quick_test.py:129-197 | `all_data` grows by the loop's rows, and the workbook is written and True returned exactly when `all_data` is non-empty and `df.to_excel` succeeds; nothing happens when the browser failed |

## Left out

- Selenium and BeautifulSoup: driver set-up, waits, CSS and XPath lookups, `click_with_retry`, scrolling and `get_text`. What they return is an input of the model.
- `time.sleep`, `random.uniform`, timing, ETA and speed reports, `PerformanceTracker`, `print` and logging. These have no effect on the data. The one exception is the full extractor's `ZeroDivisionError`, which ends the page loop and is modelled.
- pandas and openpyxl: a workbook is the list of records, or of rows, written to it. NaN cells, ragged rows and the types cells take on being read back are not modelled. `load_existing_data` returns what `save_data` stored.
- JSON progress I/O in the full extractor: the progress file is a value, `Unreadable` when loading it raises. A `current_page` that is not an integer is not modelled. Failures while writing the progress file or the temp workbook are not modelled.
- The v1 dropdown refresh inside the loop and the v1 `click_with_retry`. The loop sees each district as loaded, failed or unnamed.
- `str.upper` and `\d` cover only ASCII; `str.isspace` (`PyStr.IsSpace`) is Python's full whitespace set. `int()` accepts only ASCII digits: neither the underscore separators nor the non-ASCII decimal digits that Python allows. The state file is always written by `str(idx)`, so this does not arise.
- MergeModes.FillMissing: `pd.read_excel` reads a saved `"N/A"` cell back as NaN, so in the program no reloaded record ever equals `"N/A"` and fill-missing only appends newcomers and fills records added in this run. The model reloads `"N/A"` as it was saved and so may also fill reloaded records; `FillMissingKeepsComplete` proves that records with no sentinel, which is every reloaded record in the program, stay unchanged.
- In the judicial run, `save_data` can succeed and the following `open(state_file, 'w')` then raise (v6 lines 371-373). The new snapshot then sits beside the old state file. The model cannot reach this state. It is harmless, because the checkpoint only lags the data and a resume repeats districts that the resume merge replaces.
- `df.to_excel` raising inside the full extractor's `save_to_excel` (lines 394 and 410-412). The model's save always succeeds once there are rows, and so writes the output and runs the clean-up.
- `cleanup_temp_files` swallows an `os.remove` that raises (`extract_full_selenium.py` lines 427-428) and then leaves the remaining files. `PibFull.CleanedUp` always removes them all.
- The `KeyboardInterrupt` handler of `__main__`. An exception that leaves `extract_judicial_officers` counts as not completed, and the state file is kept.
- `cleanup_duplicates.py`: its keep-first de-duplication is the one proved for `remove_duplicates_from_data`.
