/** The inter-region RTT matrix: lookup, the fold of the feed's rows into an index, and the cached client. */
module RttMatrix {
  import opened Wrappers

  type Region = string

  /** One row of the upstream feed. Times count from the zero time. */
  datatype Row = Row(source: Region, target: Region, rtt: real, timestamp: int)

  datatype Matrix = Matrix(data: map<Region, map<Region, real>>, sampledAt: int, fetchedAt: int) {
    /** The RTT from one region to another; a region is at distance 0 from itself, known or not. */
    function Rtt(from: Region, to: Region): Option<real> {
      if from == to then Some(0.0)
      else if from in data && to in data[from] then Some(data[from][to])
      else None
    }
  }

  predicate IsFor(r: Row, from: Region, to: Region) {
    r.source == from && r.target == to
  }

  /** The RTT in the last row for this pair. */
  function LastMatch(rows: seq<Row>, from: Region, to: Region): (rtt: Option<real>)
    ensures rtt == None ==> forall i :: 0 <= i < |rows| ==> !IsFor(rows[i], from, to)
    ensures rtt.Some? ==>
              exists i :: 0 <= i < |rows| && IsFor(rows[i], from, to) && rows[i].rtt == rtt.value
                          && forall j :: i < j < |rows| ==> !IsFor(rows[j], from, to)
  {
    if rows == [] then None
    else
      var r := rows[|rows| - 1];
      if r.source == from && r.target == to then Some(r.rtt) else LastMatch(rows[..|rows| - 1], from, to)
  }

  /** The matrix answers exactly as a scan of the rows would: last matching row, diagonal 0. */
  ghost predicate Indexes(m: Matrix, rows: seq<Row>) {
    forall from, to :: m.Rtt(from, to) == if from == to then Some(0.0) else LastMatch(rows, from, to)
  }

  ghost predicate IsMaxTimestamp(t: int, rows: seq<Row>) {
    && t >= 0 && (forall i :: 0 <= i < |rows| ==> rows[i].timestamp <= t)
    && (t == 0 || exists i :: 0 <= i < |rows| && rows[i].timestamp == t)
  }

  /** A matrix that answers as these rows do, stamped with their latest time. */
  ghost predicate IsIndex(m: Matrix, rows: seq<Row>) {
    Indexes(m, rows) && IsMaxTimestamp(m.sampledAt, rows)
  }

  /** What a nested map holds for a pair. */
  function Lookup(data: map<Region, map<Region, real>>, from: Region, to: Region): Option<real> {
    if from in data && to in data[from] then Some(data[from][to]) else None
  }

  /** One row folded in; the row of a source is made when it first occurs. */
  function AddRow(data: map<Region, map<Region, real>>, r: Row): map<Region, map<Region, real>> {
    data[r.source := (if r.source in data then data[r.source] else map[])[r.target := r.rtt]]
  }

  lemma LookupNext(data: map<Region, map<Region, real>>, rows: seq<Row>, k: nat, from: Region, to: Region)
    requires k < |rows| && Lookup(data, from, to) == LastMatch(rows[..k], from, to)
    ensures Lookup(AddRow(data, rows[k]), from, to) == LastMatch(rows[..k + 1], from, to)
  {
    assert rows[..k + 1][..k] == rows[..k];
  }

  /** The fold of `refresh`. */
  method Index(rows: seq<Row>, fetchedAt: int) returns (m: Matrix)
    ensures Indexes(m, rows) && IsMaxTimestamp(m.sampledAt, rows) && m.fetchedAt == fetchedAt
  {
    var data: map<Region, map<Region, real>> := map[];
    var maxTs := 0;
    for k := 0 to |rows|
      invariant IsMaxTimestamp(maxTs, rows[..k])
      invariant forall from, to :: Lookup(data, from, to) == LastMatch(rows[..k], from, to)
    {
      var r := rows[k];
      forall from, to ensures Lookup(AddRow(data, r), from, to) == LastMatch(rows[..k + 1], from, to) {
        LookupNext(data, rows, k, from, to);
      }
      ghost var before := data;
      if r.source !in data {
        data := data[r.source := map[]];
      }
      data := data[r.source := data[r.source][r.target := r.rtt]];
      assert data == AddRow(before, r);
      if r.timestamp > maxTs {
        maxTs := r.timestamp;
      }
    }
    assert rows[..|rows|] == rows;
    m := Matrix(data, maxTs, fetchedAt);
    forall from, to ensures m.Rtt(from, to) == if from == to then Some(0.0) else LastMatch(rows, from, to) {
      assert Lookup(data, from, to) == LastMatch(rows[..|rows|], from, to);
    }
  }

  /** How one fetch ended; the first is a base URL that does not parse. */
  datatype Fetch = BadUrl | TransportError | BadStatus | Undecodable | Fetched(rows: seq<Row>)

  datatype Result = Ok(m: Matrix) | Err

  class Client {
    const ttl: int
    var cached: Option<Matrix>
    var lastError: bool
    /** The rows the cached matrix was built from. */
    ghost var cachedRows: seq<Row>

    constructor (ttl: int)
      ensures Valid() && cached == None && this.ttl == ttl && !lastError
    {
      this.ttl := ttl;
      cached := None;
      lastError := false;
      cachedRows := [];
    }

    ghost predicate Valid()
      reads this
    {
      cached.Some? ==> IsIndex(cached.value, cachedRows)
    }

    /** Other calls run in between: they may have stored a matrix of their own, and recorded or cleared an error. */
    method Others()
      requires Valid()
      modifies this
      ensures Valid() && (old(cached).Some? ==> cached.Some?)
    {
      var stored, failed: bool := *, *;
      if stored {
        var rows: seq<Row>, at: int := *, *;
        var m := Index(rows, at);
        cached, cachedRows := Some(m), rows;
      }
      lastError := failed;
    }

    /** The end of `refresh`, under the lock. */
    method Store(m: Matrix, ghost rows: seq<Row>)
      requires IsIndex(m, rows)
      modifies this
      ensures Valid() && cached == Some(m) && cachedRows == rows && !lastError
    {
      cached, cachedRows, lastError := Some(m), rows, false;
    }

    /** `Get` at time `now`, with the outcome of the fetch it makes if it makes one (decoded at `done`), while
        other calls may do the same unless it is `alone`. Whatever it returns is a faithful index of some rows,
        and it was within the TTL when the call began, or is newly fetched by this call, or is the cached copy
        of a call whose own fetch failed in transport. */
    method Get(now: int, fetch: Fetch, done: int, alone: bool) returns (r: Result, ghost rows: seq<Row>)
      requires Valid()
      modifies this
      ensures Valid()
      ensures r.Ok? ==> IsIndex(r.m, rows)
      ensures r.Ok? ==>
                || (old(cached) == Some(r.m) && now - r.m.fetchedAt < ttl)
                || (fetch.Fetched? && rows == fetch.rows && r.m.fetchedAt == done)
                || (fetch == TransportError && cached == Some(r.m))
      ensures r.Err? ==> !fetch.Fetched? && (fetch == TransportError ==> cached == None)
      ensures old(cached).Some? && now - old(cached).value.fetchedAt < ttl ==>
                r == Ok(old(cached).value) && cached == old(cached) && lastError == old(lastError)
      ensures !(old(cached).Some? && now - old(cached).value.fetchedAt < ttl) ==>
                && (fetch.Fetched? ==> cached.Some? && r == Ok(cached.value) && !lastError)
                && (fetch == TransportError ==> lastError)
      ensures alone && !(r.Ok? && fetch.Fetched?) ==> cached == old(cached)
      ensures alone && !fetch.Fetched? && fetch != TransportError ==> lastError == old(lastError)
    {
      rows := cachedRows;
      if cached.Some? && now - cached.value.fetchedAt < ttl {
        return Ok(cached.value), rows;
      }
      if !alone {
        Others();
      }
      match fetch {
        case TransportError =>
          lastError := true;
          rows := cachedRows;
          r := if cached.Some? then Ok(cached.value) else Err;
        case BadUrl =>
          r := Err;
        case BadStatus =>
          r := Err;
        case Undecodable =>
          r := Err;
        case Fetched(fetched) =>
          var m := Index(fetched, done);
          Store(m, fetched);
          r, rows := Ok(m), fetched;
      }
    }
  }
}
