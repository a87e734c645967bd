/**
 A key-value bucket as its source stream: an append-only log whose entry i has revision i + 1.
 These are the server facts the adapter relies on: per-key last revision, publishing with an
 expected last revision, and replicas as prefixes with the same revisions.
 */
module StreamLog {
  import opened Wrappers

  /** A marker is a delete or purge entry. */
  datatype Op = Put | Marker

  datatype Entry = Entry(key: string, op: Op, data: string)

  type Log = seq<Entry>

  /** The revision of the latest entry for `key`, 0 if there is none. */
  function LastRev(log: Log, key: string): (r: nat)
    ensures r <= |log|
    ensures r > 0 ==> log[r - 1].key == key
    ensures forall i :: r <= i < |log| ==> log[i].key != key
  {
    if log == [] then 0
    else if log[|log| - 1].key == key then |log|
    else LastRev(log[..|log| - 1], key)
  }

  /** A later prefix never shows an earlier revision, and the same revision means nothing came between. */
  lemma {:induction false} LastRevMonotone(log: Log, key: string, m: nat, n: nat)
    requires m <= n <= |log|
    ensures LastRev(log[..m], key) <= LastRev(log[..n], key)
    ensures LastRev(log[..m], key) == LastRev(log[..n], key)
            <==> forall i :: m <= i < n ==> log[i].key != key
    decreases n
  {
    if m < n {
      LastRevMonotone(log, key, m, n - 1);
      assert log[..n][..n - 1] == log[..n - 1];
    }
  }

  lemma LastRevAppend(log: Log, e: Entry, key: string)
    ensures LastRev(log + [e], key) == if e.key == key then |log| + 1 else LastRev(log, key)
  {
    assert (log + [e])[..|log|] == log;
  }

  datatype Lookup = NotFound | Found(rev: nat, data: string)

  /** A read of the latest value: markers read as not found. */
  function Get(log: Log, key: string): Lookup {
    var r := LastRev(log, key);
    if r == 0 || log[r - 1].op.Marker? then NotFound else Found(r, log[r - 1].data)
  }

  /** Publishing with an expected last revision for the key: appended only when it matches. */
  function PublishExpecting(log: Log, e: Entry, expected: Option<nat>): Option<Log> {
    if expected.None? || LastRev(log, e.key) == expected.value then Some(log + [e]) else None
  }

  /** The client library's create: writes when the key is absent or deleted. */
  function Create(log: Log, key: string, data: string): Option<Log> {
    if Get(log, key).NotFound? then Some(log + [Entry(key, Put, data)]) else None
  }

  /** The client library's update. */
  function Update(log: Log, key: string, data: string, expected: nat): Option<Log> {
    PublishExpecting(log, Entry(key, Put, data), Some(expected))
  }
}
