/** API key records: the bucket of the control plane as an append-only log, and what its readers make of it. */
module KeyRecords {
  import opened Wrappers

  /** `revokedAt` 0 is the zero time. The bucket key of a record is its hash. */
  datatype Record = Record(id: string, tenant: string, hash: string, revokedAt: nat) {
    predicate Active() {
      revokedAt == 0
    }
  }

  type Log = seq<Record>

  function Latest(log: Log, hash: string): Option<Record> {
    if log == [] then None
    else if log[|log| - 1].hash == hash then Some(log[|log| - 1])
    else Latest(log[..|log| - 1], hash)
  }

  lemma {:induction false} LatestIndex(log: Log, hash: string) returns (i: int)
    ensures -1 <= i < |log|
    ensures Latest(log, hash) == if i < 0 then None else Some(log[i])
    ensures i >= 0 ==> log[i].hash == hash
    ensures forall j :: i < j < |log| ==> log[j].hash != hash
  {
    if log == [] {
      i := -1;
    } else if log[|log| - 1].hash == hash {
      i := |log| - 1;
    } else {
      i := LatestIndex(log[..|log| - 1], hash);
    }
  }

  predicate ActiveIn(log: Log, hash: string) {
    Latest(log, hash).Some? && Latest(log, hash).value.Active()
  }

  // ----- listing the bucket's keys

  function Without(hashes: seq<string>, hash: string): seq<string> {
    if hashes == [] then []
    else (if hashes[0] == hash then [] else [hashes[0]]) + Without(hashes[1..], hash)
  }

  lemma {:induction false} WithoutCounts(hashes: seq<string>, hash: string, h: string)
    ensures multiset(Without(hashes, hash))[h] == if h == hash then 0 else multiset(hashes)[h]
  {
    if hashes != [] {
      WithoutCounts(hashes[1..], hash, h);
      assert hashes == [hashes[0]] + hashes[1..];
    }
  }

  /** The bucket's keys, in the order of their latest entries. */
  function Keys(log: Log): seq<string> {
    if log == [] then []
    else
      var h := log[|log| - 1].hash;
      Without(Keys(log[..|log| - 1]), h) + [h]
  }

  /** Every hash with a record is listed exactly once, and no other. */
  lemma {:induction false} KeysMeaning(log: Log, h: string)
    ensures multiset(Keys(log))[h] == if Latest(log, h).Some? then 1 else 0
  {
    if log != [] {
      KeysMeaning(log[..|log| - 1], h);
      WithoutCounts(Keys(log[..|log| - 1]), log[|log| - 1].hash, h);
    }
  }

  lemma InKeys(log: Log, h: string)
    ensures h in Keys(log) <==> Latest(log, h).Some?
  {
    KeysMeaning(log, h);
    assert h in Keys(log) <==> h in multiset(Keys(log));
  }

  // ----- the map an adapter builds from a list of records

  function ActiveMap(records: seq<Record>): map<string, string> {
    if records == [] then map[]
    else
      var last := records[|records| - 1];
      var m := ActiveMap(records[..|records| - 1]);
      if last.Active() then m[last.hash := last.tenant] else m
  }

  lemma {:induction false} ActiveMapMeaning(records: seq<Record>, h: string)
    ensures h in ActiveMap(records) <==> exists i :: 0 <= i < |records| && records[i].hash == h && records[i].Active()
    ensures h in ActiveMap(records) ==>
              exists i :: 0 <= i < |records| && records[i].hash == h && records[i].Active()
                          && records[i].tenant == ActiveMap(records)[h]
                          && forall j :: i < j < |records| && records[j].hash == h ==> !records[j].Active()
  {
    if records != [] {
      var n := |records| - 1;
      ActiveMapMeaning(records[..n], h);
      assert records[n] in records;
      forall i | 0 <= i < n ensures records[..n][i] == records[i] {
      }
    }
  }
}
