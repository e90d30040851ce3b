/** `extract_judicial_officers` of v4 and v6, with the `__main__` clean-up:
    choose a mode, walk the districts from the start index, merge each
    district's records, save the snapshot and write the checkpoint. */
module JudicialRun {
  import opened Common
  import opened PyStr
  import opened OfficerRecords
  import opened Dedup
  import opened MergeModes
  import opened Checkpoint

  /** What `save_data` leaves in the output file: the given records when
      overwriting or when there is no file yet, otherwise the existing
      records followed by them. */
  function Saved(existing: Option<seq<Record>>, records: seq<Record>, overwrite: bool): (r: seq<Record>)
    ensures |records| <= |r| && r[|r| - |records|..] == records
    ensures overwrite || existing.None? ==> r == records
    ensures !overwrite && existing.Some? ==>
              |r| == |existing.value| + |records| && r[..|existing.value|] == existing.value
  {
    if overwrite || existing.None? then records else existing.value + records
  }

  /** Appending twice stores what one append of both lists stores. */
  lemma SavedAppendTwice(existing: Option<seq<Record>>, a: seq<Record>, b: seq<Record>)
    ensures Saved(Some(Saved(existing, a, false)), b, false) == Saved(existing, a + b, false)
  {
    if existing.Some? {
      assert existing.value + a + b == existing.value + (a + b);
    }
  }

  /** An overwriting save forgets whatever was saved before. */
  lemma SavedOverwriteForgets(existing: Option<seq<Record>>, a: seq<Record>, overwrite: bool, b: seq<Record>)
    ensures Saved(Some(Saved(existing, a, overwrite)), b, true) == Saved(existing, b, true)
  {
  }

  /** The two files of a run: the Excel snapshot and the state file, `None`
      where the file does not exist. */
  class Workspace {
    var snapshot: Option<seq<Record>>
    var stateFile: Option<string>

    constructor(snapshot: Option<seq<Record>>, stateFile: Option<string>)
      ensures this.snapshot == snapshot && this.stateFile == stateFile
    {
      this.snapshot := snapshot;
      this.stateFile := stateFile;
    }

    /** `save_data(all_officers, output_file, overwrite)` */
    method SaveData(records: seq<Record>, overwrite: bool)
      modifies this
      ensures snapshot == Some(Saved(old(snapshot), records, overwrite))
      ensures stateFile == old(stateFile)
    {
      snapshot := Some(Saved(snapshot, records, overwrite));
    }

    /** `with open(state_file, 'w') as f: f.write(str(idx))` */
    method WriteCheckpoint(idx: int)
      modifies this
      ensures stateFile == Some(CheckpointText(idx))
      ensures snapshot == old(snapshot)
    {
      stateFile := Some(CheckpointText(idx));
    }

    /** `os.remove(state_file)` when it exists. */
    method RemoveStateFile()
      modifies this
      ensures stateFile == None
      ensures snapshot == old(snapshot)
    {
      stateFile := None;
    }
  }

  /** What the site shows at one iteration of the district loop. */
  datatype DistrictPage =
    | DropdownLost                                     // the dropdown wait raised before `district_name` was bound
    | Unselectable                                     // selecting the district or waiting for its table raised
    | Listed(rows: seq<OfficerRow>, saveOk: bool)      // the table was read; whether `save_data` then succeeded

  /** `district_names[idx]` with Python's negative indices; `None` raises
      `IndexError`. */
  function PyIndex(n: nat, idx: int): (p: Option<nat>)
    ensures p.Some? ==> p.value < n && (p.value == idx || p.value == idx + n)
    ensures p.None? <==> idx < -(n as int) || n <= idx
  {
    if 0 <= idx < n then Some(idx)
    else if idx < 0 && 0 <= idx + n then Some(idx + n)
    else None
  }

  /** The fixed inputs of the district loop: the schema (v4 or v6), the merge
      mode (`None` when there was no output file), the dropdown's district
      names and what each iteration sees. */
  datatype Ctx = Ctx(schema: Schema, mode: Option<Choice>, names: seq<string>, visit: int -> DistrictPage)

  /** The loop's state: `all_officers`, the two files, whether
      `district_name` has been bound, and whether a `NameError` escaped. */
  datatype Loop = Loop(officers: seq<Record>, snapshot: Option<seq<Record>>, stateFile: Option<string>,
                       named: bool, aborted: bool)

  /** How a district's records enter `all_officers` under the mode. */
  function Merge(mode: Option<Choice>, all: seq<Record>, district: string, batch: seq<Record>): Merged {
    match mode
    case Some(FillMissing) => MergeModes.FillMissing(all, batch)
    case Some(Resume) => Merged(ResumeMerge(all, district, batch), true)
    case _ => Merged(all + batch, true)
  }

  /** One iteration of `for idx in range(start_index, len(district_names))`. */
  function Step(ctx: Ctx, idx: int, st: Loop): Loop {
    var page := ctx.visit(idx);
    var p := PyIndex(|ctx.names|, idx);
    if page.DropdownLost? || p.None? then
      // the handler prints `district_name`: a NameError while it is unbound
      if st.named then st else st.(aborted := true)
    else
      var name := ctx.names[p.value];
      match page
      case Unselectable => st.(named := true)
      case Listed(rows, saveOk) =>
        var batch := DistrictRecords(ctx.schema, rows, name);
        var m := Merge(ctx.mode, st.officers, name, batch);
        if m.ok && saveOk then
          Loop(m.records, Some(Saved(st.snapshot, m.records, true)), Some(CheckpointText(idx)), true, false)
        else
          st.(officers := m.records, named := true)
  }

  /** The rest of the loop from `idx`, stopping when a `NameError` escapes. */
  function Iterate(ctx: Ctx, idx: int, st: Loop): Loop
    decreases |ctx.names| - idx
  {
    if idx >= |ctx.names| || st.aborted then st else Iterate(ctx, idx + 1, Step(ctx, idx, st))
  }

  /** Where a run stands once the menu has been answered: the mode, the
      officers loaded, the state file left and the start index. */
  datatype Start = Start(mode: Option<Choice>, officers: seq<Record>, stateFile: Option<string>, index: int)

  /** The set-up before the browser is used; `None` when `input()` ran out
      before a valid answer. */
  function Begin(snapshot: Option<seq<Record>>, stateFile: Option<string>, answers: seq<string>): Option<Start> {
    if snapshot.None? then Some(Start(None, [], stateFile, 0))
    else match FirstChoice(answers)
      case None => None
      case Some((c, _)) =>
        match c
        case Overwrite => Some(Start(Some(Overwrite), [], None, 0))
        case FillMissing => Some(Start(Some(FillMissing), KeepFirst(snapshot.value), stateFile, 0))
        case Resume => Some(Start(Some(Resume), KeepFirst(snapshot.value), stateFile, ResumeIndex(stateFile)))
  }

  /** What a run leaves: both files, `all_officers`, and whether it completed
      (and so removed the state file). */
  datatype Outcome = Outcome(snapshot: Option<seq<Record>>, stateFile: Option<string>,
                             officers: seq<Record>, completed: bool)

  /** Reference definition of a whole run. `names` is `None` when loading the
      page or its dropdown raised; `finalSaveOk` whether the final save
      succeeded. */
  function Run(schema: Schema, snapshot: Option<seq<Record>>, stateFile: Option<string>, answers: seq<string>,
               names: Option<seq<string>>, visit: int -> DistrictPage, finalSaveOk: bool): Outcome
  {
    match Begin(snapshot, stateFile, answers)
    case None => Outcome(snapshot, stateFile, [], false)
    case Some(s) =>
      if names.None? then Outcome(snapshot, s.stateFile, s.officers, false)
      else
        var ctx := Ctx(schema, s.mode, names.value, visit);
        var st := Iterate(ctx, s.index, Loop(s.officers, snapshot, s.stateFile, false, false));
        if st.aborted || !finalSaveOk then Outcome(st.snapshot, st.stateFile, st.officers, false)
        else Outcome(Some(st.officers), None, st.officers, true)
  }

  /** The menu and the loading of the existing output, on the workspace. */
  method Prepare(ws: Workspace, answers: seq<string>) returns (s: Option<Start>)
    modifies ws
    ensures s == Begin(old(ws.snapshot), old(ws.stateFile), answers)
    ensures ws.snapshot == old(ws.snapshot)
    ensures ws.stateFile == (if s.Some? then s.value.stateFile else old(ws.stateFile))
  {
    if ws.snapshot.None? {
      return Some(Start(None, [], ws.stateFile, 0));
    }
    var c, used := GetUserChoice(answers);
    if c.None? {
      return None;
    }
    var officers: seq<Record> := [];
    var startIndex := 0;
    if c.value == Overwrite {
      ws.RemoveStateFile();
    } else {
      var dropped;
      officers, dropped := RemoveDuplicates(ws.snapshot.value);
      if c.value == Resume {
        startIndex := ResumeIndex(ws.stateFile);
      }
    }
    s := Some(Start(c, officers, ws.stateFile, startIndex));
  }

  /** One district: select it, read its rows, merge, save and checkpoint. */
  method VisitDistrict(ws: Workspace, ctx: Ctx, idx: int, officers: seq<Record>, named: bool)
    returns (officers': seq<Record>, named': bool, aborted: bool)
    modifies ws
    ensures Step(ctx, idx, Loop(officers, old(ws.snapshot), old(ws.stateFile), named, false))
            == Loop(officers', ws.snapshot, ws.stateFile, named', aborted)
  {
    officers', named', aborted := officers, named, false;
    var page := ctx.visit(idx);
    var p := PyIndex(|ctx.names|, idx);
    if page.DropdownLost? || p.None? {
      aborted := !named;
      return;
    }
    var districtName := ctx.names[p.value];
    named' := true;
    if page.Listed? {
      var batch := ExtractDistrict(ctx.schema, page.rows, districtName);
      var ok := true;
      if ctx.mode == Some(FillMissing) {
        officers', ok := FillMissingMerge(officers, batch);
      } else if ctx.mode == Some(Resume) {
        officers' := Purge(officers, districtName);
        officers' := officers' + batch;
      } else {
        officers' := officers + batch;
      }
      if ok && page.saveOk {
        ws.SaveData(officers', true);
        ws.WriteCheckpoint(idx);
      }
    }
  }

  /** The district loop from `idx0`, on the workspace's two files. */
  method VisitDistricts(ws: Workspace, ctx: Ctx, idx0: int, officers0: seq<Record>)
    returns (officers: seq<Record>, aborted: bool)
    modifies ws
    ensures var r := Iterate(ctx, idx0, Loop(officers0, old(ws.snapshot), old(ws.stateFile), false, false));
            ws.snapshot == r.snapshot && ws.stateFile == r.stateFile && officers == r.officers && aborted == r.aborted
  {
    ghost var goal := Iterate(ctx, idx0, Loop(officers0, ws.snapshot, ws.stateFile, false, false));
    officers := officers0;
    var named := false;
    aborted := false;
    var idx := idx0;
    while idx < |ctx.names| && !aborted
      invariant Iterate(ctx, idx, Loop(officers, ws.snapshot, ws.stateFile, named, aborted)) == goal
      decreases |ctx.names| - idx
    {
      officers, named, aborted := VisitDistrict(ws, ctx, idx, officers, named);
      idx := idx + 1;
    }
  }

  /** The run, imperatively, on the workspace's two files. */
  method ExtractJudicialOfficers(ws: Workspace, schema: Schema, answers: seq<string>,
                                 names: Option<seq<string>>, visit: int -> DistrictPage, finalSaveOk: bool)
    returns (completed: bool)
    modifies ws
    ensures var r := Run(schema, old(ws.snapshot), old(ws.stateFile), answers, names, visit, finalSaveOk);
            ws.snapshot == r.snapshot && ws.stateFile == r.stateFile && completed == r.completed
  {
    var s := Prepare(ws, answers);
    completed := false;
    if s.Some? && names.Some? {
      var ctx := Ctx(schema, s.value.mode, names.value, visit);
      var officers, aborted := VisitDistricts(ws, ctx, s.value.index, s.value.officers);
      if !aborted && finalSaveOk {
        ws.SaveData(officers, true);
        ws.RemoveStateFile();
        completed := true;
      }
    }
  }

  /** Every record a district yields belongs to it and has a readable key. */
  lemma BatchKeyed(schema: Schema, rows: seq<OfficerRow>, district: string)
    ensures forall r | r in DistrictRecords(schema, rows, district) :: InDistrict(r, district) && StrictKey(r).Some?
  {
    DistrictRecordsWellFormed(schema, rows, district);
    assert "Name" in ColumnSet(schema) && "District" in ColumnSet(schema);
  }

  /** Whether iteration `idx` reaches the save and the checkpoint: the
      district is listed, its name is bound, the merge finished and
      `save_data` succeeded. */
  predicate Checkpoints(ctx: Ctx, idx: int, st: Loop) {
    var page := ctx.visit(idx);
    var p := PyIndex(|ctx.names|, idx);
    page.Listed? && page.saveOk && p.Some?
    && Merge(ctx.mode, st.officers, ctx.names[p.value],
             DistrictRecords(ctx.schema, page.rows, ctx.names[p.value])).ok
  }

  /** One district writes the checkpoint only together with the snapshot of
      the merged records, and only after that save succeeded; every other
      outcome (no dropdown, an unselectable district, a failed merge or
      save) leaves both files as they were. */
  lemma StepCheckpoint(ctx: Ctx, idx: int, st: Loop)
    ensures var n := Step(ctx, idx, st);
            Checkpoints(ctx, idx, st) ==> n.snapshot == Some(n.officers) && n.stateFile == Some(CheckpointText(idx))
    ensures var n := Step(ctx, idx, st);
            !Checkpoints(ctx, idx, st) ==> n.snapshot == st.snapshot && n.stateFile == st.stateFile
  {
  }

  /** The loop's state before iteration `k`, starting at `idx`. */
  function IterateTo(ctx: Ctx, idx: int, k: int, st: Loop): Loop
    decreases k - idx
  {
    if idx >= k || idx >= |ctx.names| || st.aborted then st else IterateTo(ctx, idx + 1, k, Step(ctx, idx, st))
  }

  /** Iteration `k` of the stretch from `idx` was checkpointed, and the files
      still hold what it wrote: its own index and the records after it. */
  predicate CheckpointedAt(ctx: Ctx, idx: int, st: Loop, snapshot: Option<seq<Record>>, stateFile: Option<string>, k: int) {
    var before := IterateTo(ctx, idx, k, st);
    !before.aborted && Checkpoints(ctx, k, before)
    && stateFile == Some(CheckpointText(k)) && snapshot == Some(Step(ctx, k, before).officers)
  }

  /** The checkpoint never runs ahead of the saved data: after any stretch of
      the loop either neither file changed, or both files still hold what
      a district `k` of the stretch wrote when it was checkpointed: that
      iteration was listed, merged fully and saved, the state file names
      `k`, and the snapshot holds exactly the records as they stood after
      it. */
  lemma {:induction false} IterateCheckpoint(ctx: Ctx, idx: int, st: Loop)
    ensures var r := Iterate(ctx, idx, st);
            (r.snapshot == st.snapshot && r.stateFile == st.stateFile)
            || exists k | idx <= k < |ctx.names| :: CheckpointedAt(ctx, idx, st, r.snapshot, r.stateFile, k)
    decreases |ctx.names| - idx
  {
    if idx < |ctx.names| && !st.aborted {
      var n := Step(ctx, idx, st);
      IterateCheckpoint(ctx, idx + 1, n);
      var r := Iterate(ctx, idx + 1, n);
      assert Iterate(ctx, idx, st) == r;
      CheckpointShift(ctx, idx, st, r.snapshot, r.stateFile);
    }
  }

  /** Some iteration of the stretch from `idx` was checkpointed and the files
      still hold what it wrote. */
  predicate CheckpointedIn(ctx: Ctx, idx: int, st: Loop, snapshot: Option<seq<Record>>, stateFile: Option<string>) {
    exists k | idx <= k < |ctx.names| :: CheckpointedAt(ctx, idx, st, snapshot, stateFile, k)
  }

  /** What the rest of a stretch leaves in the files, seen from its start. */
  lemma CheckpointShift(ctx: Ctx, idx: int, st: Loop, snapshot: Option<seq<Record>>, stateFile: Option<string>)
    requires !st.aborted && idx < |ctx.names|
    requires (snapshot == Step(ctx, idx, st).snapshot && stateFile == Step(ctx, idx, st).stateFile)
             || CheckpointedIn(ctx, idx + 1, Step(ctx, idx, st), snapshot, stateFile)
    ensures (snapshot == st.snapshot && stateFile == st.stateFile)
            || exists k | idx <= k < |ctx.names| :: CheckpointedAt(ctx, idx, st, snapshot, stateFile, k)
  {
    var n := Step(ctx, idx, st);
    if snapshot == n.snapshot && stateFile == n.stateFile {
      CheckpointHere(ctx, idx, st);
    } else {
      var k :| idx + 1 <= k < |ctx.names| && CheckpointedAt(ctx, idx + 1, n, snapshot, stateFile, k);
      CheckpointLater(ctx, idx, st, snapshot, stateFile, k);
    }
  }

  /** The first iteration of a stretch either leaves both files or is the
      checkpoint they now hold. */
  lemma CheckpointHere(ctx: Ctx, idx: int, st: Loop)
    requires !st.aborted && idx < |ctx.names|
    ensures var n := Step(ctx, idx, st);
            (n.snapshot == st.snapshot && n.stateFile == st.stateFile)
            || CheckpointedAt(ctx, idx, st, n.snapshot, n.stateFile, idx)
  {
    StepCheckpoint(ctx, idx, st);
    assert IterateTo(ctx, idx, idx, st) == st;
  }

  /** A checkpoint of the rest of the stretch is one of the whole stretch. */
  lemma CheckpointLater(ctx: Ctx, idx: int, st: Loop, snapshot: Option<seq<Record>>, stateFile: Option<string>, k: int)
    requires !st.aborted && idx < |ctx.names| && idx < k
    requires CheckpointedAt(ctx, idx + 1, Step(ctx, idx, st), snapshot, stateFile, k)
    ensures CheckpointedAt(ctx, idx, st, snapshot, stateFile, k)
  {
    assert IterateTo(ctx, idx, k, st) == IterateTo(ctx, idx + 1, k, Step(ctx, idx, st));
  }

  /** Resuming from a state file that names district `k` starts at `k + 1`,
      on the de-duplicated snapshot. */
  lemma ResumeStartsAfterCheckpoint(saved: seq<Record>, k: int, answers: seq<string>)
    requires FirstChoice(answers).Some? && FirstChoice(answers).value.0 == Resume
    ensures Begin(Some(saved), Some(CheckpointText(k)), answers)
            == Some(Start(Some(Resume), KeepFirst(saved), Some(CheckpointText(k)), k + 1))
  {
    ResumeAfterCheckpoint(k);
  }

  /** Choosing to overwrite forgets the state file and the saved records. */
  lemma OverwriteStartsFresh(saved: seq<Record>, stateFile: Option<string>, answers: seq<string>)
    requires FirstChoice(answers).Some? && FirstChoice(answers).value.0 == Overwrite
    ensures Begin(Some(saved), stateFile, answers) == Some(Start(Some(Overwrite), [], None, 0))
  {
  }

  /** De-duplicating records that all have a Name and a District gives a list
      on which the fill-missing merge cannot raise. */
  lemma {:induction false} KeepFirstKeyed(data: seq<Record>)
    requires forall i | 0 <= i < |data| :: StrictKey(data[i]).Some?
    ensures KeyedUnique(KeepFirst(data))
    decreases |data|
  {
    KeepFirstKeys(data);
    var kept := KeepFirst(data);
    KeepFirstKeyedRecords(data);
    forall i, j | 0 <= i < j < |kept|
      ensures StrictKey(kept[i]) != StrictKey(kept[j])
    {
      assert DedupKey(kept[i]) != DedupKey(kept[j]);
    }
  }

  lemma {:induction false} KeepFirstKeyedRecords(data: seq<Record>)
    requires forall i | 0 <= i < |data| :: StrictKey(data[i]).Some?
    ensures forall j | 0 <= j < |KeepFirst(data)| :: StrictKey(KeepFirst(data)[j]).Some?
    decreases |data|
  {
    if data != [] {
      var init := data[..|data| - 1];
      assert forall i | 0 <= i < |init| :: init[i] == data[i];
      KeepFirstKeyedRecords(init);
    }
  }

  /** In fill-missing mode on keyed, duplicate-free data a district never
      raises: the list stays keyed and duplicate-free, only fills sentinels
      and appends, and a listed district that saves is checkpointed. */
  lemma FillStep(ctx: Ctx, idx: int, st: Loop)
    requires ctx.mode == Some(FillMissing) && KeyedUnique(st.officers)
    ensures var n := Step(ctx, idx, st);
            KeyedUnique(n.officers) && Extends(st.officers, n.officers)
    ensures var p := PyIndex(|ctx.names|, idx);
            p.Some? && ctx.visit(idx).Listed? && ctx.visit(idx).saveOk
            ==> Step(ctx, idx, st).stateFile == Some(CheckpointText(idx))
  {
    var page := ctx.visit(idx);
    var p := PyIndex(|ctx.names|, idx);
    if page.Listed? && p.Some? {
      var name := ctx.names[p.value];
      var batch := DistrictRecords(ctx.schema, page.rows, name);
      BatchKeyed(ctx.schema, page.rows, name);
      FillMissingKeepsUnique(st.officers, batch);
      FillMissingExtends(st.officers, batch);
    }
  }

  /** The same over any stretch of the loop. */
  lemma {:induction false} FillModeIterate(ctx: Ctx, idx: int, st: Loop)
    requires ctx.mode == Some(FillMissing) && KeyedUnique(st.officers)
    ensures var r := Iterate(ctx, idx, st);
            KeyedUnique(r.officers) && Extends(st.officers, r.officers)
    decreases |ctx.names| - idx
  {
    if idx < |ctx.names| && !st.aborted {
      var n := Step(ctx, idx, st);
      FillStep(ctx, idx, st);
      FillModeIterate(ctx, idx + 1, n);
      ExtendsTransitive(st.officers, n.officers, Iterate(ctx, idx + 1, n).officers);
    }
  }

  /** Without a mode or when overwriting, records are only ever appended. */
  lemma {:induction false} AppendModeIterate(ctx: Ctx, idx: int, st: Loop)
    requires ctx.mode.None? || ctx.mode == Some(Overwrite)
    ensures var r := Iterate(ctx, idx, st);
            |st.officers| <= |r.officers| && r.officers[..|st.officers|] == st.officers
    decreases |ctx.names| - idx
  {
    if idx < |ctx.names| && !st.aborted {
      var n := Step(ctx, idx, st);
      AppendModeIterate(ctx, idx + 1, n);
      AppendStep(ctx, idx, st);
      PrefixTrans(st.officers, n.officers, Iterate(ctx, idx + 1, n).officers);
    }
  }

  /** Without a fill-missing or resume merge one district only appends. */
  lemma AppendStep(ctx: Ctx, idx: int, st: Loop)
    requires ctx.mode.None? || ctx.mode == Some(Overwrite)
    ensures var n := Step(ctx, idx, st);
            |st.officers| <= |n.officers| && n.officers[..|st.officers|] == st.officers
  {
  }

  lemma PrefixTrans(a: seq<Record>, b: seq<Record>, c: seq<Record>)
    requires |a| <= |b| && b[..|a|] == a
    requires |b| <= |c| && c[..|b|] == b
    ensures |a| <= |c| && c[..|a|] == a
  {
    assert c[..|a|] == c[..|b|][..|a|];
  }

  /** In resume mode a listed district ends up holding exactly its fresh
      records, with no stale row left, and every other district is untouched. */
  lemma ResumeStep(ctx: Ctx, idx: int, st: Loop, p: nat)
    requires ctx.mode == Some(Resume) && ctx.visit(idx).Listed? && PyIndex(|ctx.names|, idx) == Some(p)
    ensures var n := Step(ctx, idx, st);
            var name := ctx.names[p];
            OfDistrict(n.officers, name) == DistrictRecords(ctx.schema, ctx.visit(idx).rows, name)
            && forall other | other != name :: OfDistrict(n.officers, other) == OfDistrict(st.officers, other)
  {
    var name := ctx.names[p];
    var batch := DistrictRecords(ctx.schema, ctx.visit(idx).rows, name);
    BatchKeyed(ctx.schema, ctx.visit(idx).rows, name);
    ResumeDistrictExact(st.officers, name, batch);
    forall other | other != name
      ensures OfDistrict(ResumeMerge(st.officers, name, batch), other) == OfDistrict(st.officers, other)
    {
      ResumeKeepsOthers(st.officers, name, batch, other);
    }
  }
}
