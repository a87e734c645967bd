/**
 Why every replica has to show a revocation: while one does not, an adapter that has dropped the key
 can take it up again.
 */
module KeyStale {
  import opened Wrappers
  import opened KeyRecords
  import opened KeyProtocol
  import opened KeyReach

  lemma {:induction false} RunThen(s: State, es: seq<Event>, fs: seq<Event>)
    requires Run(s, es).Some?
    ensures Run(s, es + fs) == Run(Run(s, es).value, fs)
    decreases |es|
  {
    if es == [] {
      assert es + fs == fs;
    } else {
      assert (es + fs)[1..] == es[1..] + fs;
      RunThen(Apply(s, es[0]).value, es[1..], fs);
    }
  }

  /** What the run leaves in an adapter's cache. */
  function CacheAfter(s: State, es: seq<Event>, adapter: string): Option<map<string, string>> {
    var s' := Run(s, es);
    if s'.Some? && adapter in s'.value.caches then Some(s'.value.caches[adapter]) else None
  }

  /** One key, revoked; one of the two replicas has not applied the revocation. */
  function TwoReplicas(current: string, stale: string, adapter: string, k: Record, r: Record): State {
    State([k, r], map[stale := 1, current := 2], map[], map[], map[adapter := map[]])
  }

  /** A poll of a one-key bucket, all of it through one replica. */
  function PollThrough(adapter: string, from: string): seq<Event> {
    [PollList(adapter, from)] + [PollRead(adapter, from, false)] + [PollDone(adapter)]
  }

  lemma PollReadStep(s: State, adapter: string, from: string, hash: string, k: Record)
    requires s.polling == map[adapter := Poll([hash], [])] && Serves(s, from)
    requires Latest(View(s, from), hash) == Some(k)
    ensures Apply(s, PollRead(adapter, from, false)) == Some(s.(polling := map[adapter := Poll([], [k])]))
  {
    var p := Poll([hash], []);
    assert p.todo[1..] == [] && p.got + [k] == [k];
    assert ReadOne(p, View(s, from), false) == Poll([], [k]);
    assert s.polling[adapter := Poll([], [k])] == map[adapter := Poll([], [k])];
  }

  lemma OnePoll(s: State, adapter: string, from: string, hash: string, k: Record)
    requires adapter in s.caches && s.polling == map[] && Serves(s, from)
    requires Keys(View(s, from)) == [hash] && Latest(View(s, from), hash) == Some(k)
    ensures Run(s, PollThrough(adapter, from)) == Some(s.(caches := s.caches[adapter := ActiveMap([k])]))
  {
    var list, read, done := PollList(adapter, from), PollRead(adapter, from, false), PollDone(adapter);
    var s1 := s.(polling := map[adapter := Poll([hash], [])]);
    var s2 := s.(polling := map[adapter := Poll([], [k])]);
    assert Apply(s, list) == Some(s1);
    PollReadStep(s1, adapter, from, hash, k);
    assert s2.polling - {adapter} == map[];
    RunThen(s, [list], [read]);
    RunThen(s, [list] + [read], [done]);
  }

  lemma OneKeyViews(k: Record, r: Record)
    requires k.hash == r.hash && k.Active() && !r.Active()
    ensures Keys([k]) == Keys([k, r]) == [k.hash]
    ensures Latest([k], k.hash) == Some(k) && Latest([k, r], k.hash) == Some(r)
    ensures ActiveMap([k]) == map[k.hash := k.tenant] && ActiveMap([r]) == map[]
  {
    assert [k][..0] == [] && [r][..0] == [] && [k, r][..1] == [k];
    assert ActiveMap([]) == map[];
    assert Keys([k]) == [k.hash];
    assert Without([k.hash], k.hash) == [];
  }

  /** One event more. */
  lemma Then(s0: State, es: seq<Event>, s: State, e: Event) returns (es': seq<Event>, s': State)
    requires Run(s0, es) == Some(s) && Apply(s, e).Some?
    ensures es' == es + [e] && Apply(s, e) == Some(s') && Run(s0, es') == Some(s')
  {
    es', s' := es + [e], Apply(s, e).value;
    RunThen(s0, es, [e]);
  }

  /** An empty bucket with two replicas and one adapter. */
  function EmptyPair(current: string, stale: string, adapter: string): State {
    State([], map[stale := 0, current := 0], map[], map[], map[adapter := map[]])
  }

  /** The key is issued and both replicas have it. */
  function IssuedPair(current: string, stale: string, adapter: string, k: Record): State {
    State([k], map[stale := 1, current := 1], map[], map[], map[adapter := map[]])
  }

  lemma ReachIssued(current: string, stale: string, adapter: string, k: Record) returns (es: seq<Event>)
    requires current != stale && k.Active()
    ensures Run(EmptyPair(current, stale, adapter), es) == Some(IssuedPair(current, stale, adapter, k))
  {
    var s0 := EmptyPair(current, stale, adapter);
    var s: State;
    es, s := Then(s0, [], s0, Issue(k));
    assert s == s0.(log := [k]);
    es, s := Then(s0, es, s, Replicate(stale, 1));
    assert s == s0.(log := [k], replicas := map[stale := 1, current := 0]);
    es, s := Then(s0, es, s, Replicate(current, 1));
    assert s.replicas == map[stale := 1, current := 1];
  }

  /** Issuing a key and revoking it, with one replica not following: a run from the empty bucket. */
  lemma ReachTwoReplicas(current: string, stale: string, adapter: string, k: Record, now: nat) returns (es: seq<Event>)
    requires current != stale && k.Active() && now > 0
    ensures Init(EmptyPair(current, stale, adapter))
    ensures Run(EmptyPair(current, stale, adapter), es) == Some(TwoReplicas(current, stale, adapter, k, k.(revokedAt := now)))
  {
    var r := k.(revokedAt := now);
    var s0, s := EmptyPair(current, stale, adapter), IssuedPair(current, stale, adapter, k);
    es := ReachIssued(current, stale, adapter, k);
    OneKeyViews(k, r);
    assert View(s, current) == [k];
    es, s := Then(s0, es, s, RevokeRead(0, k.hash, current));
    assert s == IssuedPair(current, stale, adapter, k).(revoking := map[0 := k]);
    es, s := Then(s0, es, s, RevokeWrite(0, now));
    assert s.revoking == map[] && s.log == [k, r];
    es, s := Then(s0, es, s, Replicate(current, 2));
    assert s.replicas == map[stale := 1, current := 2];
  }

  /** A run from the empty bucket in which an adapter drops a revoked key and later, polling a replica that
      lags, takes it up again. */
  lemma StaleReplicaRevives(current: string, stale: string, adapter: string, k: Record, now: nat) returns (es: seq<Event>)
    requires current != stale && k.Active() && now > 0
    ensures var s0 := EmptyPair(current, stale, adapter);
            && Init(s0) && Run(s0, es).Some? && Revoked(Run(s0, es).value.log, k.hash)
            && CacheAfter(s0, es + PollThrough(adapter, current), adapter) == Some(map[])
            && CacheAfter(s0, es + PollThrough(adapter, current) + PollThrough(adapter, stale), adapter)
               == Some(map[k.hash := k.tenant])
  {
    var r := k.(revokedAt := now);
    var s0, s := EmptyPair(current, stale, adapter), TwoReplicas(current, stale, adapter, k, r);
    es := ReachTwoReplicas(current, stale, adapter, k, now);
    assert s.log[1] == r;
    OneKeyViews(k, r);
    assert [k, r][..1] == [k] && [k, r][..2] == [k, r];
    OnePoll(s, adapter, current, k.hash, r);
    assert s.caches[adapter := map[]] == s.caches;
    OnePoll(s, adapter, stale, k.hash, k);
    RunThen(s0, es, PollThrough(adapter, current));
    RunThen(s0, es + PollThrough(adapter, current), PollThrough(adapter, stale));
  }

  // ----- in general: exactly while some replica does not show the revocation

  /** Reads the rest of a poll through one replica that has the key active. */
  lemma {:induction false} ReadRest(s: State, adapter: string, from: string, hash: string) returns (es: seq<Event>, s': State)
    requires adapter in s.caches && adapter in s.polling && Serves(s, from) && ActiveIn(View(s, from), hash)
    requires Gathers(s, adapter, hash)
    ensures Run(s, es) == Some(s') && adapter in s'.caches
    ensures adapter in s'.polling && s'.polling[adapter].todo == [] && HasActive(s'.polling[adapter].got, hash)
    decreases |s.polling[adapter].todo|
  {
    if s.polling[adapter].todo == [] {
      es, s' := [], s;
    } else {
      var e := PollRead(adapter, from, false);
      var s1 := Apply(s, e).value;
      LatestIn(View(s, from), hash);
      GathersRead(s.polling[adapter], View(s, from), hash);
      var rest;
      rest, s' := ReadRest(s1, adapter, from, hash);
      es := [e] + rest;
      assert es[1..] == rest;
    }
  }

  /** A whole poll through such a replica puts the key into the cache. */
  lemma PollTakesUp(s: State, adapter: string, from: string, hash: string) returns (es: seq<Event>, s': State)
    requires adapter in s.caches && adapter !in s.polling && Serves(s, from) && ActiveIn(View(s, from), hash)
    ensures Run(s, es) == Some(s') && PollDone(adapter) in es && Accepts(s', adapter, hash)
  {
    var list, done := PollList(adapter, from), PollDone(adapter);
    InKeys(View(s, from), hash);
    var s1 := Apply(s, list).value;
    var rest, s2 := ReadRest(s1, adapter, from, hash);
    RunThen(s, [list], rest);
    es, s' := Then(s, [list] + rest, s2, done);
    assert es[|es| - 1] == done;
    AcceptsStep(s2, done, adapter, hash);
  }

  /** A replica that does not show the revocation has the key active, or is about to once it applies the
      record that issued the key. */
  lemma ReachActive(s: State, from: string, hash: string, tenant: string) returns (es: seq<Event>, s': State)
    requires Inv(s) && Serves(s, from) && !Revoked(View(s, from), hash) && Issued(s.log, hash, tenant)
    ensures Run(s, es) == Some(s') && s'.caches == s.caches && s'.polling == s.polling
    ensures Serves(s', from) && ActiveIn(View(s', from), hash)
  {
    var i :| 0 <= i < |s.log| && s.log[i].hash == hash && s.log[i].tenant == tenant && s.log[i].Active();
    if s.replicas[from] > i {
      es, s' := [], s;
    } else {
      var e := Replicate(from, i + 1);
      es, s' := [e], Apply(s, e).value;
      assert !Revoked(s.log[..i + 1], hash);
    }
    ActiveInPrefix(s.log, s'.replicas[from], i);
  }

  lemma ActiveInPrefix(log: Log, n: nat, i: nat)
    requires ActiveIsFirst(log) && i < n <= |log| && !Revoked(log[..n], log[i].hash)
    ensures ActiveIn(log[..n], log[i].hash)
  {
    RevokedIsLatest(log[..n], log[i].hash);
    var j := LatestIndex(log[..n], log[i].hash);
    assert log[..n][i].hash == log[i].hash;
  }

  /** No poll that this adapter begins and completes, in any run, leaves the hash in its cache. */
  ghost predicate Gone(s: State, adapter: string, hash: string) {
    forall es {:trigger Run(s, es)} :: Run(s, es).Some? && PollDone(adapter) in es ==> !Accepts(Run(s, es).value, adapter, hash)
  }

  /** For every issued hash, every state and every adapter not in the middle of a poll: the hash is gone from
      the adapter for good, from its next complete poll on, exactly when every replica shows the revocation. */
  lemma GoneIffShown(s: State, adapter: string, hash: string, tenant: string)
    requires Inv(s) && adapter in s.caches && adapter !in s.polling && Issued(s.log, hash, tenant)
    ensures Gone(s, adapter, hash) <==> Shown(s, hash)
  {
    if Shown(s, hash) {
      forall es | Run(s, es).Some? && PollDone(adapter) in es ensures !Accepts(Run(s, es).value, adapter, hash) {
        RevocationReachesAdapters(s, es, adapter, hash);
      }
    } else {
      var r :| Serves(s, r) && !Revoked(View(s, r), hash);
      var es, s1 := ReachActive(s, r, hash, tenant);
      var fs, s2 := PollTakesUp(s1, adapter, r, hash);
      RunThen(s, es, fs);
      assert PollDone(adapter) in es + fs;
      assert Run(s, es + fs) == Some(s2);
    }
  }
}
