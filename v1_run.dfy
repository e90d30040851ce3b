/** The first version of the judicial-officer scraper: no menu, no
    checkpoint, at most the first five districts, one save at the end. */
module FirstVersion {
  import opened Common
  import opened OfficerRecords

  /** What one iteration of the district loop meets. */
  datatype Visit =
    | Unnamed                                  // reading `district_options[idx].text` raised
    | Failed(name: string)                     // selecting the district or waiting for its table raised
    | Loaded(name: string, rows: seq<OfficerRow>)

  /** The districts the loop reaches: `range(0, len(options))` cut off by
      `if idx > 4: break`. */
  function Reached(options: nat): (n: nat)
    ensures n <= 5 && n <= options
    ensures options <= 5 ==> n == options
    ensures options > 5 ==> n == 5
  {
    if options <= 5 then options else 5
  }

  /** The records one iteration appends. */
  function Batch(v: Visit): seq<Record> {
    if v.Loaded? then DistrictRecords(TenFields, v.rows, v.name) else []
  }

  /** The records of the first `n` iterations, in order. */
  function Collected(visit: nat -> Visit, n: nat): seq<Record>
    decreases n
  {
    if n == 0 then [] else Collected(visit, n - 1) + Batch(visit(n - 1))
  }

  /** The spreadsheet the run writes, `None` when it writes none: when the
      page or its dropdown did not load (`options` is `None`), when the very
      first district name could not be read (the handler then prints the
      unbound `district_name`, and the `NameError` leaves the function),
      when the final wait for the dropdown times out, when nothing was
      extracted, or when `to_excel` fails (`writeOk` is false). */
  function Output(options: Option<nat>, visit: nat -> Visit, finalWaitOk: bool, writeOk: bool): Option<seq<Record>> {
    if options.None? then None
    else if options.value > 0 && visit(0).Unnamed? then None
    else if !finalWaitOk then None
    else
      var all := Collected(visit, Reached(options.value));
      if all == [] || !writeOk then None else Some(all)
  }

  /** `extract_judicial_officers` of version 1. */
  method ExtractFirstDistricts(options: Option<nat>, visit: nat -> Visit, finalWaitOk: bool, writeOk: bool)
    returns (saved: Option<seq<Record>>)
    ensures saved == Output(options, visit, finalWaitOk, writeOk)
  {
    if options.None? {
      return None;
    }
    var officers: seq<Record> := [];
    var named := false;
    var idx := 0;
    while idx < options.value
      invariant 0 <= idx <= Reached(options.value)
      invariant officers == Collected(visit, idx)
      invariant named == (idx > 0)
      invariant idx > 0 ==> !visit(0).Unnamed?
      decreases options.value - idx
    {
      if idx > 4 {
        break;
      }
      var v := visit(idx);
      if v.Unnamed? {
        if !named {
          return None;
        }
      } else {
        named := true;
        if v.Loaded? {
          var batch := ExtractDistrict(TenFields, v.rows, v.name);
          officers := officers + batch;
        }
      }
      idx := idx + 1;
    }
    if !finalWaitOk {
      return None;
    }
    saved := if officers == [] || !writeOk then None else Some(officers);
  }

  /** The records of a longer run start with those of a shorter one. */
  lemma {:induction false} CollectedPrefix(visit: nat -> Visit, m: nat, n: nat)
    requires m <= n
    ensures |Collected(visit, m)| <= |Collected(visit, n)|
    ensures Collected(visit, n)[..|Collected(visit, m)|] == Collected(visit, m)
    decreases n
  {
    if m < n {
      CollectedPrefix(visit, m, n - 1);
      PrefixSnoc(Collected(visit, m), Collected(visit, n - 1), Batch(visit(n - 1)));
    }
  }

  lemma PrefixSnoc(a: seq<Record>, b: seq<Record>, x: seq<Record>)
    requires |a| <= |b| && b[..|a|] == a
    ensures |a| <= |b + x| && (b + x)[..|a|] == a
  {
    assert (b + x)[..|a|] == b[..|a|];
  }

  /** Every record saved comes from one of the first five districts, is well
      formed, and carries that district's name. */
  lemma {:induction false} CollectedFromReached(visit: nat -> Visit, n: nat, i: nat)
    requires i < |Collected(visit, n)|
    ensures exists k | 0 <= k < n :: visit(k).Loaded? && WellFormed(TenFields, Collected(visit, n)[i], visit(k).name)
    decreases n
  {
    var init := Collected(visit, n - 1);
    var v := visit(n - 1);
    if i < |init| {
      CollectedFromReached(visit, n - 1, i);
    } else {
      DistrictRecordsWellFormed(TenFields, v.rows, v.name);
      assert Collected(visit, n)[i] in Batch(v);
    }
  }

  /** What the run saves never depends on a district after the fifth. */
  lemma {:induction false} OutputIgnoresLaterDistricts(options: Option<nat>, visit: nat -> Visit, other: nat -> Visit,
                                                     finalWaitOk: bool, writeOk: bool)
    requires forall k | 0 <= k < 5 :: visit(k) == other(k)
    ensures Output(options, visit, finalWaitOk, writeOk) == Output(options, other, finalWaitOk, writeOk)
  {
    if options.Some? {
      CollectedAgree(visit, other, Reached(options.value));
    }
  }

  lemma {:induction false} CollectedAgree(visit: nat -> Visit, other: nat -> Visit, n: nat)
    requires forall k | 0 <= k < n :: visit(k) == other(k)
    ensures Collected(visit, n) == Collected(other, n)
    decreases n
  {
    if n > 0 {
      CollectedAgree(visit, other, n - 1);
    }
  }
}
