/**
 Issuing, revoking and polling API keys as a step system. Revoking is a read followed by a write;
 a poll reads the key list and then record by record; every read is answered by some replica of the
 bucket, and each replica holds a prefix of the log. All steps interleave.
 */
module KeyProtocol {
  import opened Wrappers
  import opened KeyRecords

  datatype Poll = Poll(todo: seq<string>, got: seq<Record>)

  datatype State = State(
    log: Log,
    replicas: map<string, nat>,                  // replica -> entries applied
    revoking: map<nat, Record>,                  // revocations between their read and their write
    polling: map<string, Poll>,                  // adapter -> its poll in progress
    caches: map<string, map<string, string>>)    // adapter -> hash -> tenant

  datatype Event =
    | Issue(k: Record)
    | RevokeRead(op: nat, hash: string, from: string)
    | RevokeWrite(op: nat, now: nat)
    | RevokeFail(op: nat)
    | Replicate(to: string, upTo: nat)
    | PollList(adapter: string, from: string)
    | PollRead(adapter: string, from: string, fails: bool)
    | PollDone(adapter: string)
    | PollFail(adapter: string)

  ghost predicate Init(s: State) {
    && s.log == [] && s.revoking == map[] && s.polling == map[]
    && (forall r :: r in s.replicas ==> s.replicas[r] == 0)
    && (forall a :: a in s.caches ==> s.caches[a] == map[])
  }

  predicate Fresh(log: Log, hash: string) {
    forall i :: 0 <= i < |log| ==> log[i].hash != hash
  }

  /** What a replica shows. */
  function View(s: State, replica: string): Log
    requires replica in s.replicas && s.replicas[replica] <= |s.log|
  {
    s.log[..s.replicas[replica]]
  }

  predicate Serves(s: State, replica: string) {
    replica in s.replicas && s.replicas[replica] <= |s.log|
  }

  /** One record of a poll: read and kept, or skipped when the read fails or finds nothing. */
  function ReadOne(p: Poll, view: Log, fails: bool): Poll
    requires p.todo != []
  {
    var k := Latest(view, p.todo[0]);
    Poll(p.todo[1..], if fails || k.None? then p.got else p.got + [k.value])
  }

  function Apply(s: State, e: Event): Option<State> {
    match e
    case Issue(k) =>
      if Fresh(s.log, k.hash) && k.Active() then Some(s.(log := s.log + [k])) else None
    case RevokeRead(op, hash, from) =>
      if op in s.revoking || !Serves(s, from) then None
      else if Latest(View(s, from), hash).None? then Some(s)
      else Some(s.(revoking := s.revoking[op := Latest(View(s, from), hash).value]))
    case RevokeWrite(op, now) =>
      if op !in s.revoking || now == 0 then None
      else Some(s.(log := s.log + [s.revoking[op].(revokedAt := now)], revoking := s.revoking - {op}))
    case RevokeFail(op) =>
      if op !in s.revoking then None else Some(s.(revoking := s.revoking - {op}))
    case Replicate(to, upTo) =>
      if to in s.replicas && s.replicas[to] <= upTo <= |s.log| then Some(s.(replicas := s.replicas[to := upTo])) else None
    case PollList(a, from) =>
      if a !in s.caches || a in s.polling || !Serves(s, from) then None
      else Some(s.(polling := s.polling[a := Poll(Keys(View(s, from)), [])]))
    case PollRead(a, from, fails) =>
      if a !in s.polling || s.polling[a].todo == [] || !Serves(s, from) then None
      else Some(s.(polling := s.polling[a := ReadOne(s.polling[a], View(s, from), fails)]))
    case PollDone(a) =>
      if a !in s.polling || s.polling[a].todo != [] then None
      else Some(s.(polling := s.polling - {a}, caches := s.caches[a := ActiveMap(s.polling[a].got)]))
    case PollFail(a) =>
      if a !in s.polling then None else Some(s.(polling := s.polling - {a}))
  }

  function Run(s: State, es: seq<Event>): Option<State>
    decreases |es|
  {
    if es == [] then Some(s)
    else
      match Apply(s, es[0])
      case None => None
      case Some(s') => Run(s', es[1..])
  }

  /** A revocation between its read and its write, and a poll, can fail at any moment; then nothing has changed for
      anybody else, and the adapter goes on with the keys it had and can poll again. */
  lemma FailuresChangeNothing(s: State, op: nat, adapter: string, from: string)
    ensures op in s.revoking ==> Apply(s, RevokeFail(op)) == Some(s.(revoking := s.revoking - {op}))
    ensures adapter in s.polling ==>
              var s' := s.(polling := s.polling - {adapter});
              Apply(s, PollFail(adapter)) == Some(s')
              && (adapter in s.caches && Serves(s, from) ==> Apply(s', PollList(adapter, from)).Some?)
  {
  }

  // ----- the invariant

  predicate SameKey(a: Record, b: Record) {
    a.hash == b.hash && a.tenant == b.tenant && a.id == b.id
  }

  ghost predicate Known(log: Log, k: Record) {
    exists i :: 0 <= i < |log| && SameKey(log[i], k)
  }

  /** An active record is the first one for its hash. */
  ghost predicate ActiveIsFirst(log: Log) {
    forall i, j :: 0 <= i < j < |log| && log[j].Active() ==> log[i].hash != log[j].hash
  }

  ghost predicate HashNamesKey(log: Log) {
    forall i, j :: 0 <= i < j < |log| && log[i].hash == log[j].hash ==> SameKey(log[i], log[j])
  }

  /** The hash was issued to the tenant. */
  ghost predicate Issued(log: Log, hash: string, tenant: string) {
    exists i :: 0 <= i < |log| && log[i].hash == hash && log[i].tenant == tenant && log[i].Active()
  }

  ghost predicate PollOk(log: Log, p: Poll) {
    forall i :: 0 <= i < |p.got| ==> p.got[i] in log
  }

  ghost predicate CacheOk(log: Log, cache: map<string, string>) {
    forall h :: h in cache ==> Issued(log, h, cache[h])
  }

  ghost predicate LogOk(log: Log) {
    ActiveIsFirst(log) && HashNamesKey(log)
  }

  ghost predicate ReplicasOk(log: Log, replicas: map<string, nat>) {
    forall r :: r in replicas ==> replicas[r] <= |log|
  }

  ghost predicate RevokingOk(log: Log, revoking: map<nat, Record>) {
    forall op :: op in revoking ==> Known(log, revoking[op])
  }

  ghost predicate PollsOk(log: Log, polling: map<string, Poll>) {
    forall a :: a in polling ==> PollOk(log, polling[a])
  }

  ghost predicate CachesOk(log: Log, caches: map<string, map<string, string>>) {
    forall a :: a in caches ==> CacheOk(log, caches[a])
  }

  ghost predicate Inv(s: State) {
    && LogOk(s.log) && ReplicasOk(s.log, s.replicas) && RevokingOk(s.log, s.revoking)
    && PollsOk(s.log, s.polling) && CachesOk(s.log, s.caches)
  }

  lemma AppendKeeps(s: State, k: Record)
    requires Inv(s)
    ensures var log' := s.log + [k];
            && ReplicasOk(log', s.replicas) && RevokingOk(log', s.revoking)
            && PollsOk(log', s.polling) && CachesOk(log', s.caches)
  {
    var log' := s.log + [k];
    forall r | Known(s.log, r) ensures Known(log', r) {
      var i :| 0 <= i < |s.log| && SameKey(s.log[i], r);
      assert log'[i] == s.log[i];
    }
    forall h, t | Issued(s.log, h, t) ensures Issued(log', h, t) {
      var i :| 0 <= i < |s.log| && s.log[i].hash == h && s.log[i].tenant == t && s.log[i].Active();
      assert log'[i] == s.log[i];
    }
  }

  lemma WriteKeepsHashes(log: Log, k: Record)
    requires LogOk(log) && Known(log, k) && !k.Active()
    ensures LogOk(log + [k])
  {
    var j :| 0 <= j < |log| && SameKey(log[j], k);
    forall i | 0 <= i < |log| && log[i].hash == k.hash ensures SameKey(log[i], k) {
      assert i < j || i == j || j < i;
    }
  }

  lemma LatestIn(log: Log, hash: string)
    requires Latest(log, hash).Some?
    ensures Latest(log, hash).value in log && Latest(log, hash).value.hash == hash
  {
    var i := LatestIndex(log, hash);
  }

  lemma PollDoneKeeps(log: Log, p: Poll)
    requires PollOk(log, p)
    ensures CacheOk(log, ActiveMap(p.got))
  {
    var m := ActiveMap(p.got);
    forall h | h in m ensures Issued(log, h, m[h]) {
      ActiveMapMeaning(p.got, h);
      var i :| 0 <= i < |p.got| && p.got[i].hash == h && p.got[i].Active() && p.got[i].tenant == m[h];
      assert p.got[i] in log;
    }
  }

  lemma RevokeReadKeeps(s: State, e: Event)
    requires Inv(s) && e.RevokeRead? && Apply(s, e).Some?
    ensures Inv(Apply(s, e).value)
  {
    var view := View(s, e.from);
    if Latest(view, e.hash).Some? {
      LatestIn(view, e.hash);
      var k := Latest(view, e.hash).value;
      var i :| 0 <= i < |view| && view[i] == k;
      assert SameKey(s.log[i], k);
    }
  }

  lemma RevokeWriteKeeps(s: State, e: Event)
    requires Inv(s) && e.RevokeWrite? && Apply(s, e).Some?
    ensures Inv(Apply(s, e).value)
  {
    var k := s.revoking[e.op].(revokedAt := e.now);
    var i :| 0 <= i < |s.log| && SameKey(s.log[i], s.revoking[e.op]);
    assert SameKey(s.log[i], k);
    AppendKeeps(s, k);
    WriteKeepsHashes(s.log, k);
  }

  lemma PollReadKeeps(s: State, e: Event)
    requires Inv(s) && e.PollRead? && Apply(s, e).Some?
    ensures Inv(Apply(s, e).value)
  {
    var view, h := View(s, e.from), s.polling[e.adapter].todo[0];
    if Latest(view, h).Some? {
      LatestIn(view, h);
      assert Latest(view, h).value in s.log;
    }
    assert PollOk(s.log, ReadOne(s.polling[e.adapter], view, e.fails));
  }

  lemma StepKeepsInv(s: State, e: Event)
    requires Inv(s) && Apply(s, e).Some?
    ensures Inv(Apply(s, e).value) && s.log <= Apply(s, e).value.log
  {
    match e {
      case Issue(k) =>
        AppendKeeps(s, k);
      case RevokeRead(op, hash, from) =>
        RevokeReadKeeps(s, e);
      case RevokeWrite(op, now) =>
        RevokeWriteKeeps(s, e);
      case PollRead(a, from, fails) =>
        PollReadKeeps(s, e);
      case PollDone(a) =>
        PollDoneKeeps(s.log, s.polling[a]);
      case _ =>
    }
  }

  lemma {:induction false} RunKeepsInv(s: State, es: seq<Event>)
    requires Inv(s) && Run(s, es).Some?
    ensures Inv(Run(s, es).value) && s.log <= Run(s, es).value.log
    decreases |es|
  {
    if es != [] {
      StepKeepsInv(s, es[0]);
      RunKeepsInv(Apply(s, es[0]).value, es[1..]);
    }
  }

  /** In every reachable state, whatever an adapter accepts was issued, to that very tenant. */
  lemma AcceptedWasIssued(s0: State, es: seq<Event>, adapter: string, hash: string)
    requires Init(s0) && Run(s0, es).Some?
    requires var s := Run(s0, es).value; adapter in s.caches && hash in s.caches[adapter]
    ensures var s := Run(s0, es).value; Issued(s.log, hash, s.caches[adapter][hash])
  {
    RunKeepsInv(s0, es);
  }

  // ----- revocation is permanent

  ghost predicate Revoked(log: Log, hash: string) {
    exists i :: 0 <= i < |log| && log[i].hash == hash && !log[i].Active()
  }

  /** A log that contains a revocation of the hash shows it as revoked, whatever came before or after. */
  lemma RevokedIsLatest(log: Log, hash: string)
    requires ActiveIsFirst(log)
    ensures Revoked(log, hash) ==> Latest(log, hash).Some? && !Latest(log, hash).value.Active()
    ensures ActiveIn(log, hash) <==> Latest(log, hash).Some? && !Revoked(log, hash)
  {
    var j := LatestIndex(log, hash);
    if Revoked(log, hash) {
      var i :| 0 <= i < |log| && log[i].hash == hash && !log[i].Active();
      assert i <= j;
    }
  }

  lemma RevokedGrows(log: Log, log': Log, hash: string)
    requires log <= log' && Revoked(log, hash)
    ensures Revoked(log', hash)
  {
    var i :| 0 <= i < |log| && log[i].hash == hash && !log[i].Active();
    assert log'[i] == log[i];
  }

  /** No step of any run makes a revoked hash active again, neither in the log nor in any later prefix of it. */
  lemma RevocationIsPermanent(s: State, es: seq<Event>, hash: string, n: nat)
    requires Inv(s) && Run(s, es).Some? && Revoked(s.log, hash)
    requires |s.log| <= n <= |Run(s, es).value.log|
    ensures !ActiveIn(Run(s, es).value.log[..n], hash)
  {
    RunKeepsInv(s, es);
    var log' := Run(s, es).value.log;
    assert s.log <= log'[..n];
    RevokedGrows(s.log, log'[..n], hash);
    RevokedIsLatest(log'[..n], hash);
  }

  /** A revocation that completes leaves its hash revoked, whatever replica it read from and whatever was
      written between its read and its write. */
  lemma RevokeRevokes(s: State, op: nat, now: nat)
    requires Inv(s) && Apply(s, RevokeWrite(op, now)).Some?
    ensures Revoked(Apply(s, RevokeWrite(op, now)).value.log, s.revoking[op].hash)
  {
    var log' := Apply(s, RevokeWrite(op, now)).value.log;
    assert log'[|s.log|].hash == s.revoking[op].hash && !log'[|s.log|].Active();
  }
}
