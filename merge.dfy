/** How one district's batch records are merged into `all_officers`, for each
    of the three run modes (v4 and v6). */
module MergeModes {
  import opened Common
  import opened OfficerRecords

  /** `(r['Name'], r['District'])`, `None` where a field is missing and the
      subscript raises `KeyError`. */
  function StrictKey(r: Record): Option<(string, string)> {
    if "Name" in r && "District" in r then Some((r["Name"], r["District"])) else None
  }

  /** Where the scan over `all_officers` for a key ends. */
  datatype Scan = Found(at: nat) | Absent | KeyFailure(at: nat)

  /** The scan from `from` on: the first record with the key, or the first
      record whose key cannot be read, whichever comes first. */
  function ScanFrom(all: seq<Record>, key: (string, string), from: nat): (s: Scan)
    requires from <= |all|
    ensures s.Found? ==> from <= s.at < |all| && StrictKey(all[s.at]) == Some(key)
    ensures s.KeyFailure? ==> from <= s.at < |all| && StrictKey(all[s.at]).None?
    ensures forall j | from <= j < |all| && (s.Absent? || j < s.at) ::
              StrictKey(all[j]).Some? && StrictKey(all[j]) != Some(key)
    decreases |all| - from
  {
    if from == |all| then Absent
    else match StrictKey(all[from])
      case None => KeyFailure(from)
      case Some(k) => if k == key then Found(from) else ScanFrom(all, key, from + 1)
  }

  /** `for existing_officer in all_officers: if (...) == key: ... break` */
  function FindMatch(all: seq<Record>, key: (string, string)): Scan {
    ScanFrom(all, key, 0)
  }

  /** The record after `for k, v in new.items(): if existing.get(k) == "N/A":
      existing[k] = v`, restricted to the keys in `done`. */
  function PatchOn(existing: Record, incoming: Record, done: set<string>): Record {
    map k | k in existing :: if k in done && k in incoming && existing[k] == NA then incoming[k] else existing[k]
  }

  /** The whole patch of an existing record by a batch one. */
  function Patch(existing: Record, incoming: Record): Record {
    PatchOn(existing, incoming, incoming.Keys)
  }

  /** The patch loop over the batch record's items, updating in place. */
  method PatchSentinels(existing: Record, incoming: Record) returns (patched: Record)
    ensures patched == Patch(existing, incoming)
  {
    patched := existing;
    var todo := incoming.Keys;
    while todo != {}
      invariant todo <= incoming.Keys
      invariant patched == PatchOn(existing, incoming, incoming.Keys - todo)
      decreases |todo|
    {
      var k :| k in todo;
      if k in patched && patched[k] == NA {
        patched := patched[k := incoming[k]];
      }
      todo := todo - {k};
      assert patched == PatchOn(existing, incoming, incoming.Keys - todo);
    }
  }

  /** A patch keeps the record's fields, replaces only sentinels, and only by
      the batch record's value for that field. */
  lemma PatchOnlySentinels(existing: Record, incoming: Record)
    ensures Patch(existing, incoming).Keys == existing.Keys
    ensures forall k | k in existing && existing[k] != NA :: Patch(existing, incoming)[k] == existing[k]
    ensures forall k | k in existing && existing[k] == NA ::
              Patch(existing, incoming)[k] == (if k in incoming then incoming[k] else NA)
  {
  }

  lemma PatchIdempotent(existing: Record, incoming: Record)
    ensures Patch(Patch(existing, incoming), incoming) == Patch(existing, incoming)
  {
  }

  /** The record that matched keeps its (Name, District): a sentinel name or
      district can only be replaced by the equal batch value. */
  lemma PatchKeepsKey(existing: Record, incoming: Record)
    requires StrictKey(existing).Some? && StrictKey(existing) == StrictKey(incoming)
    ensures StrictKey(Patch(existing, incoming)) == StrictKey(existing)
  {
  }

  /** One batch officer: patch the first match, append when there is none;
      `None` when a `KeyError` escapes. */
  function FillOne(all: seq<Record>, incoming: Record): Option<seq<Record>> {
    match StrictKey(incoming)
    case None => None
    case Some(key) =>
      match FindMatch(all, key)
      case Found(i) => Some(all[i := Patch(all[i], incoming)])
      case Absent => Some(all + [incoming])
      case KeyFailure(_) => None
  }

  /** The list a merge leaves and whether it ran to the end. */
  datatype Merged = Merged(records: seq<Record>, ok: bool)

  /** The fill-missing merge of a district's batch of records, in order; the flag is
      false when a `KeyError` stopped it, leaving the changes made so far. */
  function FillMissing(all: seq<Record>, batch: seq<Record>): Merged
    decreases |batch|
  {
    if batch == [] then Merged(all, true)
    else
      var m := FillMissing(all, batch[..|batch| - 1]);
      if !m.ok then m
      else match FillOne(m.records, batch[|batch| - 1])
        case None => Merged(m.records, false)
        case Some(after) => Merged(after, true)
  }

  /** The `choice == 2` branch: for each batch officer a scan with `found` and
      `break`, then the patch or the append. */
  method FillMissingMerge(all: seq<Record>, batch: seq<Record>) returns (result: seq<Record>, ok: bool)
    ensures Merged(result, ok) == FillMissing(all, batch)
  {
    result := all;
    var n := 0;
    while n < |batch|
      invariant 0 <= n <= |batch|
      invariant FillMissing(all, batch[..n]) == Merged(result, true)
    {
      assert batch[..n + 1][..n] == batch[..n];
      var incoming := batch[n];
      if !("Name" in incoming && "District" in incoming) {
        FillMissingStops(all, batch, n + 1);
        return result, false;
      }
      var key := (incoming["Name"], incoming["District"]);
      var before := result;
      var found := false;
      var j := 0;
      while j < |before| && !found
        invariant 0 <= j <= |before|
        invariant !found ==> result == before && FindMatch(before, key) == ScanFrom(before, key, j)
        invariant found ==> j >= 1 && FindMatch(before, key) == Found(j - 1)
                            && result == before[j - 1 := Patch(before[j - 1], incoming)]
        decreases |before| - j
      {
        var existing := before[j];
        if !("Name" in existing && "District" in existing) {
          FillMissingStops(all, batch, n + 1);
          return result, false;
        }
        if (existing["Name"], existing["District"]) == key {
          var patched := PatchSentinels(existing, incoming);
          result := before[j := patched];
          found := true;
        }
        j := j + 1;
      }
      if !found {
        result := result + [incoming];
      }
      assert FillOne(before, incoming) == Some(result);
      n := n + 1;
    }
    assert batch[..n] == batch;
    ok := true;
  }

  /** A failure at the `n`-th batch record ends the merge there. */
  lemma {:induction false} FillMissingStops(all: seq<Record>, batch: seq<Record>, n: nat)
    requires 0 < n <= |batch|
    requires FillMissing(all, batch[..n - 1]).ok
    requires FillOne(FillMissing(all, batch[..n - 1]).records, batch[n - 1]).None?
    ensures FillMissing(all, batch) == Merged(FillMissing(all, batch[..n - 1]).records, false)
    decreases |batch|
  {
    assert batch[..n][..n - 1] == batch[..n - 1];
    if n < |batch| {
      assert batch[..|batch| - 1][..n - 1] == batch[..n - 1];
      FillMissingStops(all, batch[..|batch| - 1], n);
    }
  }

  /** `after` is `before` with, at most, sentinels filled in. */
  predicate Refines(before: Record, after: Record) {
    after.Keys == before.Keys && forall k | k in before && before[k] != NA :: after[k] == before[k]
  }

  /** Every old record is still in its place, refined, and records were only
      added at the end. */
  predicate Extends(before: seq<Record>, after: seq<Record>) {
    |before| <= |after| && forall j | 0 <= j < |before| :: Refines(before[j], after[j])
  }

  lemma PatchRefines(existing: Record, incoming: Record)
    ensures Refines(existing, Patch(existing, incoming))
  {
    PatchOnlySentinels(existing, incoming);
  }

  lemma FillOneExtends(all: seq<Record>, incoming: Record)
    requires FillOne(all, incoming).Some?
    ensures Extends(all, FillOne(all, incoming).value)
  {
    var after := FillOne(all, incoming).value;
    match FindMatch(all, StrictKey(incoming).value)
    case Found(i) =>
      PatchRefines(all[i], incoming);
    case Absent =>
      assert forall j | 0 <= j < |all| :: after[j] == all[j];
  }

  lemma ExtendsTransitive(a: seq<Record>, b: seq<Record>, c: seq<Record>)
    requires Extends(a, b) && Extends(b, c)
    ensures Extends(a, c)
  {
  }

  /** Whether or not it runs to the end, the fill-missing merge only fills
      sentinels of existing records and appends: no existing record moves,
      loses a field or has a non-sentinel value changed. */
  lemma {:induction false} FillMissingExtends(all: seq<Record>, batch: seq<Record>)
    ensures Extends(all, FillMissing(all, batch).records)
    decreases |batch|
  {
    if batch != [] {
      var m := FillMissing(all, batch[..|batch| - 1]);
      FillMissingExtends(all, batch[..|batch| - 1]);
      if m.ok && FillOne(m.records, batch[|batch| - 1]).Some? {
        FillOneExtends(m.records, batch[|batch| - 1]);
        ExtendsTransitive(all, m.records, FillOne(m.records, batch[|batch| - 1]).value);
      }
    }
  }

  /** A record none of whose fields holds the sentinel. */
  predicate SentinelFree(r: Record) {
    forall k | k in r :: r[k] != NA
  }

  /** Records without a sentinel are left exactly as they were: the
      fill-missing merge only appends after them. */
  lemma FillMissingKeepsComplete(all: seq<Record>, batch: seq<Record>)
    requires forall j | 0 <= j < |all| :: SentinelFree(all[j])
    ensures var after := FillMissing(all, batch).records;
            |all| <= |after| && after[..|all|] == all
  {
    FillMissingExtends(all, batch);
    var after := FillMissing(all, batch).records;
    forall j | 0 <= j < |all| ensures after[j] == all[j] {
      assert Refines(all[j], after[j]);
      assert SentinelFree(all[j]);
    }
  }

  /** Every record has a readable (Name, District) and no two share it. */
  predicate KeyedUnique(s: seq<Record>) {
    (forall j | 0 <= j < |s| :: StrictKey(s[j]).Some?)
    && forall i, j | 0 <= i < j < |s| :: StrictKey(s[i]) != StrictKey(s[j])
  }

  /** Some record of the list has the key. */
  predicate HasKey(s: seq<Record>, key: Option<(string, string)>) {
    exists j | 0 <= j < |s| :: StrictKey(s[j]) == key
  }

  /** On keyed, duplicate-free data a fresh officer cannot raise; the list
      stays duplicate-free, every old record keeps its key, and the officer's
      key is now present. */
  lemma FillOneKeepsUnique(all: seq<Record>, incoming: Record)
    requires KeyedUnique(all) && StrictKey(incoming).Some?
    ensures FillOne(all, incoming).Some?
    ensures var after := FillOne(all, incoming).value;
            KeyedUnique(after) && |all| <= |after| && HasKey(after, StrictKey(incoming))
            && forall j | 0 <= j < |all| :: StrictKey(after[j]) == StrictKey(all[j])
  {
    var key := StrictKey(incoming).value;
    match FindMatch(all, key)
    case Found(i) =>
      PatchKeepsKey(all[i], incoming);
      var after := all[i := Patch(all[i], incoming)];
      assert forall j | 0 <= j < |all| :: StrictKey(after[j]) == StrictKey(all[j]);
    case Absent =>
      var after := all + [incoming];
      assert forall j | 0 <= j < |all| :: after[j] == all[j];
      assert StrictKey(after[|all|]) == StrictKey(incoming);
  }

  lemma KeysStay(before: seq<Record>, after: seq<Record>, key: Option<(string, string)>)
    requires |before| <= |after| && forall j | 0 <= j < |before| :: StrictKey(after[j]) == StrictKey(before[j])
    requires HasKey(before, key)
    ensures HasKey(after, key)
  {
    var j :| 0 <= j < |before| && StrictKey(before[j]) == key;
    assert StrictKey(after[j]) == key;
  }

  /** On keyed, duplicate-free data and built records the fill-missing merge
      runs to the end, stays duplicate-free, and leaves a record for every
      officer of the batch. */
  lemma {:induction false} FillMissingKeepsUnique(all: seq<Record>, batch: seq<Record>)
    requires KeyedUnique(all)
    requires forall i | 0 <= i < |batch| :: StrictKey(batch[i]).Some?
    ensures FillMissing(all, batch).ok
    ensures KeyedUnique(FillMissing(all, batch).records)
    ensures forall i | 0 <= i < |batch| :: HasKey(FillMissing(all, batch).records, StrictKey(batch[i]))
    decreases |batch|
  {
    if batch != [] {
      var n := |batch| - 1;
      var init := batch[..n];
      FillMissingKeepsUnique(all, init);
      var m := FillMissing(all, init);
      FillOneKeepsUnique(m.records, batch[n]);
      var after := FillOne(m.records, batch[n]).value;
      assert FillMissing(all, batch).records == after;
      forall i | 0 <= i < |batch|
        ensures HasKey(after, StrictKey(batch[i]))
      {
        if i < n {
          assert init[i] == batch[i];
          KeysStay(m.records, after, StrictKey(batch[i]));
        }
      }
    }
  }

  /** `officer.get('District') == district_name` */
  predicate InDistrict(r: Record, district: string) {
    "District" in r && r["District"] == district
  }

  /** `[officer for officer in all_officers if officer.get('District') != district_name]` */
  function Purge(all: seq<Record>, district: string): seq<Record>
    decreases |all|
  {
    if all == [] then []
    else
      var init := Purge(all[..|all| - 1], district);
      if InDistrict(all[|all| - 1], district) then init else init + [all[|all| - 1]]
  }

  /** The records of one district, in order. */
  function OfDistrict(all: seq<Record>, district: string): seq<Record>
    decreases |all|
  {
    if all == [] then []
    else
      var init := OfDistrict(all[..|all| - 1], district);
      if InDistrict(all[|all| - 1], district) then init + [all[|all| - 1]] else init
  }

  /** The `choice == 3` branch: purge the district, then append its batch. */
  function ResumeMerge(all: seq<Record>, district: string, batch: seq<Record>): seq<Record> {
    Purge(all, district) + batch
  }

  lemma {:induction false} FiltersAppend(a: seq<Record>, b: seq<Record>, district: string)
    ensures Purge(a + b, district) == Purge(a, district) + Purge(b, district)
    ensures OfDistrict(a + b, district) == OfDistrict(a, district) + OfDistrict(b, district)
    decreases |b|
  {
    if b == [] {
      assert a + b == a;
    } else {
      var b' := b[..|b| - 1];
      assert (a + b)[..|a + b| - 1] == a + b';
      assert (a + b)[|a + b| - 1] == b[|b| - 1];
      FiltersAppend(a, b', district);
    }
  }

  /** Filtering a list that holds only one district's records. */
  lemma {:induction false} FiltersOfOneDistrict(batch: seq<Record>, district: string, other: string)
    requires forall r | r in batch :: InDistrict(r, district)
    requires other != district
    ensures OfDistrict(batch, district) == batch && Purge(batch, district) == []
    ensures OfDistrict(batch, other) == [] && Purge(batch, other) == batch
    decreases |batch|
  {
    if batch != [] {
      var init := batch[..|batch| - 1];
      assert forall r | r in init :: r in batch;
      FiltersOfOneDistrict(init, district, other);
    }
  }

  lemma {:induction false} PurgeLeavesNone(all: seq<Record>, district: string)
    ensures OfDistrict(Purge(all, district), district) == []
    ensures Purge(Purge(all, district), district) == Purge(all, district)
    decreases |all|
  {
    if all != [] {
      var init := all[..|all| - 1];
      PurgeLeavesNone(init, district);
      var last := all[|all| - 1];
      if !InDistrict(last, district) {
        FiltersAppend(Purge(init, district), [last], district);
      }
    }
  }

  lemma {:induction false} PurgeKeepsOthers(all: seq<Record>, district: string, other: string)
    requires other != district
    ensures OfDistrict(Purge(all, district), other) == OfDistrict(all, other)
    decreases |all|
  {
    if all != [] {
      var init := all[..|all| - 1];
      PurgeKeepsOthers(init, district, other);
      var last := all[|all| - 1];
      if !InDistrict(last, district) {
        FiltersAppend(Purge(init, district), [last], other);
      } else {
        assert !InDistrict(last, other);
      }
    }
  }

  /** After a resume merge the district's records are exactly its new batch,
      at the end: none is stale and none is doubled. */
  lemma ResumeDistrictExact(all: seq<Record>, district: string, batch: seq<Record>)
    requires forall r | r in batch :: InDistrict(r, district)
    ensures OfDistrict(ResumeMerge(all, district, batch), district) == batch
    ensures ResumeMerge(all, district, batch)[|ResumeMerge(all, district, batch)| - |batch|..] == batch
  {
    FiltersAppend(Purge(all, district), batch, district);
    PurgeLeavesNone(all, district);
    FiltersOfOneDistrict(batch, district, district + "'");
  }

  /** Records of the other districts keep their order and content. */
  lemma ResumeKeepsOthers(all: seq<Record>, district: string, batch: seq<Record>, other: string)
    requires forall r | r in batch :: InDistrict(r, district)
    requires other != district
    ensures OfDistrict(ResumeMerge(all, district, batch), other) == OfDistrict(all, other)
    ensures Purge(ResumeMerge(all, district, batch), district) == Purge(all, district)
  {
    FiltersAppend(Purge(all, district), batch, other);
    FiltersAppend(Purge(all, district), batch, district);
    PurgeKeepsOthers(all, district, other);
    PurgeLeavesNone(all, district);
    FiltersOfOneDistrict(batch, district, other);
  }

  /** Re-processing a district replaces its earlier batch: two resume merges
      of the same district leave what the second alone leaves. */
  lemma ResumeTwice(all: seq<Record>, district: string, first: seq<Record>, second: seq<Record>)
    requires forall r | r in first :: InDistrict(r, district)
    ensures ResumeMerge(ResumeMerge(all, district, first), district, second) == ResumeMerge(all, district, second)
  {
    FiltersAppend(Purge(all, district), first, district);
    PurgeLeavesNone(all, district);
    FiltersOfOneDistrict(first, district, district + "'");
  }
}
