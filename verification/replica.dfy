/**
 Reads through lagging mirrors and conditional writes to the source of one bucket, as a step
 system. A mirror holds a prefix of the source log with the source's revisions and only moves
 forward; every write goes to the source.
 */
module Replica {
  import opened Wrappers
  import opened StreamLog

  datatype State = State(log: Log, mirrors: map<string, nat>)   // region -> entries applied

  datatype Event =
    | Write(e: Entry, expected: Option<nat>)   // put, conditional put, delete or purge
    | Make(key: string, data: string)          // create
    | Mirror(region: string)                   // a new, empty mirror
    | Advance(region: string, to: nat)

  function Apply(s: State, e: Event): Option<State> {
    match e
    case Write(entry, expected) =>
      var l := PublishExpecting(s.log, entry, expected);
      if l.Some? then Some(s.(log := l.value)) else None
    case Make(key, data) =>
      var l := Create(s.log, key, data);
      if l.Some? then Some(s.(log := l.value)) else None
    case Mirror(region) =>
      if region !in s.mirrors then Some(s.(mirrors := s.mirrors[region := 0])) else None
    case Advance(region, to) =>
      if region in s.mirrors && s.mirrors[region] <= to <= |s.log| then Some(s.(mirrors := s.mirrors[region := to])) else None
  }

  function Run(s: State, es: seq<Event>): Option<State>
    decreases |es|
  {
    if es == [] then Some(s)
    else
      match Apply(s, es[0])
      case None => None
      case Some(s') => Run(s', es[1..])
  }

  ghost predicate Valid(s: State) {
    forall r :: r in s.mirrors ==> s.mirrors[r] <= |s.log|
  }

  /** The log grows at the end and mirrors only move forward. */
  lemma {:induction false} RunGrows(s: State, es: seq<Event>)
    requires Valid(s) && Run(s, es).Some?
    ensures var s' := Run(s, es).value;
            && Valid(s') && s.log <= s'.log
            && forall r :: r in s.mirrors ==> r in s'.mirrors && s.mirrors[r] <= s'.mirrors[r]
    decreases |es|
  {
    if es != [] {
      RunGrows(Apply(s, es[0]).value, es[1..]);
    }
  }

  /** What the mirror of a region answers. */
  function MirrorGet(s: State, region: string, key: string): Lookup
    requires Valid(s) && region in s.mirrors
  {
    Get(s.log[..s.mirrors[region]], key)
  }

  /** A 200 from a mirror is the latest entry for the key in a prefix of the source log, and a put;
      otherwise the prefix has no entry for the key or its latest is a marker. */
  lemma MirrorIsPrefixConsistent(s: State, region: string, key: string)
    requires Valid(s) && region in s.mirrors
    ensures var n := s.mirrors[region];
            match MirrorGet(s, region, key)
            case Found(rev, data) =>
              && 1 <= rev <= n && s.log[rev - 1] == Entry(key, Put, data)
              && (forall i :: rev <= i < n ==> s.log[i].key != key)
            case NotFound =>
              forall i :: 0 <= i < n && s.log[i].key == key && s.log[i].op.Put? ==>
                exists j :: i < j < n && s.log[j].key == key && s.log[j].op.Marker?
  {
    var n := s.mirrors[region];
    var r := LastRev(s.log[..n], key);
    forall i | r <= i < n ensures s.log[i].key != key {
      assert s.log[..n][i] == s.log[i];
    }
    if MirrorGet(s, region, key).NotFound? && r > 0 {
      assert s.log[..n][r - 1] == s.log[r - 1];
    }
  }

  /** A mirror that has applied everything answers exactly as the source. */
  lemma CaughtUpMirrorIsSource(s: State, region: string, key: string)
    requires Valid(s) && region in s.mirrors && s.mirrors[region] == |s.log|
    ensures MirrorGet(s, region, key) == Get(s.log, key)
  {
    assert s.log[..|s.log|] == s.log;
  }

  /** Of two prefixes, the longer shows the same entry for a key, a newer one, or a newer marker. */
  lemma LongerPrefixReads(log: Log, key: string, m: nat, n: nat)
    requires m <= n <= |log| && Get(log[..m], key).Found?
    ensures var before := Get(log[..m], key);
            match Get(log[..n], key)
            case Found(rev, data) => before.rev < rev || before == Found(rev, data)
            case NotFound => exists i :: before.rev <= i < n && log[i].key == key && log[i].op.Marker?
  {
    LastRevMonotone(log, key, m, n);
    var r := LastRev(log[..n], key);
    assert log[..n][r - 1] == log[r - 1];
  }

  /** Successive mirror reads in one region never go back: the later one returns the same revision with
      the same data, a newer revision, or not found because of a newer marker. */
  lemma MirrorReadsMoveForward(s: State, es: seq<Event>, region: string, key: string)
    requires Valid(s) && region in s.mirrors && Run(s, es).Some?
    requires MirrorGet(s, region, key).Found?
    ensures var s', read := Run(s, es).value, MirrorGet(s, region, key);
            && Valid(s') && region in s'.mirrors
            && match MirrorGet(s', region, key)
               case Found(rev', data') => read.rev < rev' || read == Found(rev', data')
               case NotFound =>
                 exists i :: read.rev <= i < s'.mirrors[region] && s'.log[i].key == key && s'.log[i].op.Marker?
  {
    RunGrows(s, es);
    var s' := Run(s, es).value;
    assert s.log[..s.mirrors[region]] == s'.log[..s.mirrors[region]];
    LongerPrefixReads(s'.log, key, s.mirrors[region], s'.mirrors[region]);
  }

  /** The revision a source write is acknowledged with. */
  function Revision(s: State): nat {
    |s.log|
  }

  ghost predicate Untouched(log: Log, key: string, from: nat) {
    forall i :: from <= i < |log| ==> log[i].key != key
  }

  lemma UntouchedIsLast(log: Log, key: string, r: nat)
    requires 1 <= r <= |log| && log[r - 1].key == key
    ensures LastRev(log, key) == r <==> Untouched(log, key, r)
  {
    var l := LastRev(log, key);
    if l > r {
      assert log[l - 1].key == key;
    }
  }

  /** What was read in a prefix is still current exactly when its revision is still the key's last. */
  lemma StillCurrent(log: Log, key: string, n: nat)
    requires n <= |log| && Get(log[..n], key).Found?
    ensures var read := Get(log[..n], key);
            && (LastRev(log, key) == read.rev <==> Untouched(log, key, read.rev))
            && (LastRev(log, key) == read.rev <==> Get(log, key) == read)
  {
    var r := LastRev(log[..n], key);
    assert log[r - 1] == log[..n][r - 1];
    UntouchedIsLast(log, key, r);
  }

  /** An optimistic transaction through a mirror at any lag: after reading revision r, a put with If-Match r
      later succeeds exactly when no write to the key landed in between; then the value read is still the
      current one, so read and write act as one atomic step. */
  lemma OptimisticTransaction(s: State, es: seq<Event>, region: string, key: string, data: string)
    requires Valid(s) && region in s.mirrors && Run(s, es).Some?
    requires MirrorGet(s, region, key).Found?
    ensures var s', read := Run(s, es).value, MirrorGet(s, region, key);
            var put := Apply(s', Write(Entry(key, Put, data), Some(read.rev)));
            && (put.Some? <==> Untouched(s'.log, key, read.rev))
            && (put.Some? <==> Get(s'.log, key) == read)
            && (put.Some? ==> Get(put.value.log, key) == Found(Revision(put.value), data) && read.rev < Revision(put.value))
  {
    RunGrows(s, es);
    var s' := Run(s, es).value;
    assert s.log[..s.mirrors[region]] == s'.log[..s.mirrors[region]];
    StillCurrent(s'.log, key, s.mirrors[region]);
    LastRevAppend(s'.log, Entry(key, Put, data), key);
  }

  /** Revisions of successive writes to one key strictly increase. */
  lemma RevisionsIncrease(s: State, e: Event, es: seq<Event>, e': Event)
    requires Valid(s) && (e.Write? || e.Make?) && (e'.Write? || e'.Make?)
    requires Apply(s, e).Some? && Run(Apply(s, e).value, es).Some?
    requires Apply(Run(Apply(s, e).value, es).value, e').Some?
    ensures Revision(Apply(s, e).value) < Revision(Apply(Run(Apply(s, e).value, es).value, e').value)
  {
    RunGrows(Apply(s, e).value, es);
  }

  /** Create as a lock: two creates of one key both succeed only if it was deleted in between. */
  lemma CreateExcludesCreate(s: State, es: seq<Event>, key: string, owner: string, other: string)
    requires Valid(s) && Apply(s, Make(key, owner)).Some?
    requires Run(Apply(s, Make(key, owner)).value, es).Some?
    requires Apply(Run(Apply(s, Make(key, owner)).value, es).value, Make(key, other)).Some?
    ensures var s' := Run(Apply(s, Make(key, owner)).value, es).value;
            exists i :: |s.log| < i < |s'.log| && s'.log[i].key == key && s'.log[i].op.Marker?
  {
    var s1 := Apply(s, Make(key, owner)).value;
    RunGrows(s1, es);
    var s' := Run(s1, es).value;
    var r := LastRev(s'.log, key);
    assert s'.log[|s.log|] == s1.log[|s.log|] == Entry(key, Put, owner);
    assert r > |s.log|;
    assert s'.log[r - 1].op.Marker?;
  }
}
