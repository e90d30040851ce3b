/** `remove_duplicates_from_data`: keep the first record for each
    (Name, District) pair, in order. */
module Dedup {
  import opened OfficerRecords

  /** `record.get(k, '')` */
  function GetOrEmpty(r: Record, k: string): string {
    if k in r then r[k] else ""
  }

  /** The de-duplication key; a missing field counts as the empty string. */
  function DedupKey(r: Record): (string, string) {
    (GetOrEmpty(r, "Name"), GetOrEmpty(r, "District"))
  }

  /** The keys of a list of records. */
  function KeysOf(data: seq<Record>): (keys: set<(string, string)>)
    decreases |data|
  {
    if data == [] then {} else KeysOf(data[..|data| - 1]) + {DedupKey(data[|data| - 1])}
  }

  lemma KeysOfSnoc(data: seq<Record>, r: Record)
    ensures KeysOf(data + [r]) == KeysOf(data) + {DedupKey(r)}
  {
    assert (data + [r])[..|data|] == data;
  }

  /** A key is among the keys of a list exactly when some record has it. */
  lemma {:induction false} KeysOfMembers(data: seq<Record>, k: (string, string))
    ensures k in KeysOf(data) <==> exists i | 0 <= i < |data| :: DedupKey(data[i]) == k
    decreases |data|
  {
    if data != [] {
      var init := data[..|data| - 1];
      KeysOfMembers(init, k);
      if exists i | 0 <= i < |init| :: DedupKey(init[i]) == k {
        var i :| 0 <= i < |init| && DedupKey(init[i]) == k;
        assert data[i] == init[i];
      }
      if exists i | 0 <= i < |data| :: DedupKey(data[i]) == k {
        var i :| 0 <= i < |data| && DedupKey(data[i]) == k;
        if i < |init| {
          assert data[i] == init[i];
        }
      }
    }
  }

  lemma KeysOfHas(data: seq<Record>, i: nat)
    requires i < |data|
    ensures DedupKey(data[i]) in KeysOf(data)
  {
    KeysOfMembers(data, DedupKey(data[i]));
  }

  /** The list the loop builds: a record is appended when its key has not been
      seen yet. */
  function KeepFirst(data: seq<Record>): seq<Record>
    decreases |data|
  {
    if data == [] then []
    else
      var kept := KeepFirst(data[..|data| - 1]);
      var r := data[|data| - 1];
      if DedupKey(r) in KeysOf(kept) then kept else kept + [r]
  }

  /** The loop, with `seen`, `unique_data` and `duplicates_found`. */
  method RemoveDuplicates(data: seq<Record>) returns (unique: seq<Record>, duplicates: nat)
    ensures unique == KeepFirst(data)
    ensures duplicates == |data| - |unique|
  {
    var seen: set<(string, string)> := {};
    unique := [];
    duplicates := 0;
    var i := 0;
    while i < |data|
      invariant 0 <= i <= |data|
      invariant unique == KeepFirst(data[..i])
      invariant seen == KeysOf(unique)
      invariant duplicates + |unique| == i
    {
      var record := data[i];
      assert data[..i + 1][..i] == data[..i];
      var key := (GetOrEmpty(record, "Name"), GetOrEmpty(record, "District"));
      if key !in seen {
        seen := seen + {key};
        KeysOfSnoc(unique, record);
        unique := unique + [record];
      } else {
        duplicates := duplicates + 1;
      }
      i := i + 1;
    }
    assert data[..i] == data;
  }

  /** No two records of a list share a key. */
  predicate UniqueKeys(data: seq<Record>) {
    forall i, j | 0 <= i < j < |data| :: DedupKey(data[i]) != DedupKey(data[j])
  }

  /** The record at `i` is the first with its key. */
  predicate FirstOfKey(data: seq<Record>, i: nat)
    requires i < |data|
  {
    forall j | 0 <= j < i :: DedupKey(data[j]) != DedupKey(data[i])
  }

  /** In a list without repeated keys the last key is new. */
  lemma LastKeyIsNew(data: seq<Record>)
    requires data != [] && UniqueKeys(data)
    ensures DedupKey(data[|data| - 1]) !in KeysOf(data[..|data| - 1])
  {
    var init := data[..|data| - 1];
    forall i | 0 <= i < |init|
      ensures DedupKey(init[i]) != DedupKey(data[|data| - 1])
    {
      assert init[i] == data[i];
    }
    KeysOfMembers(init, DedupKey(data[|data| - 1]));
  }

  /** The output has one record per key, and exactly the keys of the input. */
  lemma {:induction false} KeepFirstKeys(data: seq<Record>)
    ensures UniqueKeys(KeepFirst(data))
    ensures KeysOf(KeepFirst(data)) == KeysOf(data)
    decreases |data|
  {
    if data != [] {
      var init := data[..|data| - 1];
      KeepFirstKeys(init);
      var kept := KeepFirst(init);
      var r := data[|data| - 1];
      if DedupKey(r) !in KeysOf(kept) {
        KeysOfSnoc(kept, r);
        var out := kept + [r];
        forall j | 0 <= j < |kept|
          ensures DedupKey(out[j]) != DedupKey(r)
        {
          KeysOfHas(kept, j);
        }
      }
    }
  }

  /** Reference definition: the records that are the first of their key,
      in input order. */
  function FirstsOf(data: seq<Record>): seq<Record>
    decreases |data|
  {
    if data == [] then []
    else
      var n := |data| - 1;
      FirstsOf(data[..n]) + (if FirstOfKey(data, n) then [data[n]] else [])
  }

  /** The loop keeps exactly the first record of each key, in order. */
  lemma {:induction false} KeepFirstIsFirstsOf(data: seq<Record>)
    ensures KeepFirst(data) == FirstsOf(data)
    decreases |data|
  {
    if data != [] {
      var n := |data| - 1;
      var init := data[..n];
      KeepFirstIsFirstsOf(init);
      KeepFirstKeys(init);
      FirstOfKeyIsNew(data);
    }
  }

  /** The last record is the first of its key exactly when its key is not
      among those before it. */
  lemma FirstOfKeyIsNew(data: seq<Record>)
    requires data != []
    ensures FirstOfKey(data, |data| - 1) <==> DedupKey(data[|data| - 1]) !in KeysOf(data[..|data| - 1])
  {
    var n := |data| - 1;
    var init := data[..n];
    var r := data[n];
    KeysOfMembers(init, DedupKey(r));
    if DedupKey(r) in KeysOf(init) {
      var i :| 0 <= i < n && DedupKey(init[i]) == DedupKey(r);
      assert data[i] == init[i];
    } else {
      forall j | 0 <= j < n
        ensures DedupKey(data[j]) != DedupKey(r)
      {
        assert data[j] == init[j];
      }
    }
  }

  /** De-duplicating a list without repeated keys changes nothing. */
  lemma {:induction false} KeepFirstOfUnique(data: seq<Record>)
    requires UniqueKeys(data)
    ensures KeepFirst(data) == data
    decreases |data|
  {
    if data != [] {
      var init := data[..|data| - 1];
      assert UniqueKeys(init);
      KeepFirstOfUnique(init);
      LastKeyIsNew(data);
    }
  }

  /** Running the de-duplication on its own output changes nothing. */
  lemma KeepFirstIdempotent(data: seq<Record>)
    ensures KeepFirst(KeepFirst(data)) == KeepFirst(data)
  {
    KeepFirstKeys(data);
    KeepFirstOfUnique(KeepFirst(data));
  }

  /** The number kept is the number of distinct keys, so the number dropped is
      the input size minus that. */
  lemma KeepFirstCount(data: seq<Record>)
    ensures |KeepFirst(data)| == |KeysOf(data)|
  {
    KeepFirstKeys(data);
    UniqueKeysCount(KeepFirst(data));
  }

  lemma {:induction false} UniqueKeysCount(data: seq<Record>)
    requires UniqueKeys(data)
    ensures |KeysOf(data)| == |data|
    decreases |data|
  {
    if data != [] {
      var init := data[..|data| - 1];
      assert UniqueKeys(init);
      UniqueKeysCount(init);
      LastKeyIsNew(data);
    }
  }
}
