/**
 The revoke loop of `regenKey` and `deleteTenant` among all the other steps on the key bucket: other
 revocations, newly issued keys, polls and replication go on while it lists the tenant's keys and then
 reads, stamps and writes them one by one, each read answered by some replica.
 */
module KeyRegen {
  import opened Wrappers
  import opened KeyRecords
  import opened KeyProtocol
  import opened KeyReach

  /** Where the loop is: listing the bucket, or revoking the hashes it listed. */
  datatype Loop = Idle | Listing(todo: seq<string>, got: seq<string>) | Revoking(left: seq<string>) | Done

  /** The bucket, and one loop in the foreground. `op` is the loop's own name for its revocations. */
  datatype Scene = Scene(s: State, loop: Loop)

  datatype Step =
    | Other(e: Event)                       // anybody else's step
    | List(from: string)
    | ReadListed(from: string, fails: bool) // one record of the listing
    | Listed
    | Look(from: string)                    // RevokeKey's read; a record that is not found is passed over
    | Stamp(now: nat)                       // RevokeKey's write
    | GiveUp                                // a failed read or write of RevokeKey, ignored by the loop
    | Finish

  predicate Foreign(e: Event, op: nat) {
    && (e.RevokeRead? ==> e.op != op) && (e.RevokeWrite? ==> e.op != op) && (e.RevokeFail? ==> e.op != op)
  }

  function Lift(s: Option<State>, loop: Loop): Option<Scene> {
    match s
    case None => None
    case Some(s') => Some(Scene(s', loop))
  }

  /** What one record read contributes to the list of the tenant's hashes. */
  function Keep(view: Log, hash: string, fails: bool, tenant: string): seq<string> {
    var k := Latest(view, hash);
    if !fails && k.Some? && k.value.tenant == tenant then [hash] else []
  }

  function Take(op: nat, tenant: string, w: Scene, st: Step): Option<Scene> {
    match st
    case Other(e) => if Foreign(e, op) then Lift(Apply(w.s, e), w.loop) else None
    case List(from) =>
      if w.loop.Idle? && Serves(w.s, from) then Some(w.(loop := Listing(Keys(View(w.s, from)), []))) else None
    case ReadListed(from, fails) =>
      if w.loop.Listing? && w.loop.todo != [] && Serves(w.s, from) then
        Some(w.(loop := Listing(w.loop.todo[1..], w.loop.got + Keep(View(w.s, from), w.loop.todo[0], fails, tenant))))
      else None
    case Listed =>
      if w.loop.Listing? && w.loop.todo == [] then Some(w.(loop := Revoking(w.loop.got))) else None
    case Look(from) =>
      if w.loop.Revoking? && w.loop.left != [] && op !in w.s.revoking && Serves(w.s, from) then
        if Latest(View(w.s, from), w.loop.left[0]).None? then Some(w.(loop := Revoking(w.loop.left[1..])))
        else Lift(Apply(w.s, RevokeRead(op, w.loop.left[0], from)), w.loop)
      else None
    case Stamp(now) =>
      if w.loop.Revoking? && w.loop.left != [] then Lift(Apply(w.s, RevokeWrite(op, now)), Revoking(w.loop.left[1..])) else None
    case GiveUp =>
      if w.loop.Revoking? && w.loop.left != [] then
        Some(Scene(w.s.(revoking := w.s.revoking - {op}), Revoking(w.loop.left[1..])))
      else None
    case Finish =>
      if w.loop.Revoking? && w.loop.left == [] then Some(w.(loop := Done)) else None
  }

  function Play(op: nat, tenant: string, w: Scene, sts: seq<Step>): Option<Scene>
    decreases |sts|
  {
    if sts == [] then Some(w)
    else
      match Take(op, tenant, w, sts[0])
      case None => None
      case Some(w') => Play(op, tenant, w', sts[1..])
  }

  predicate Fails(st: Step) {
    st.GiveUp? || (st.ReadListed? && st.fails)
  }

  function Others(es: seq<Event>): (sts: seq<Step>)
    ensures |sts| == |es| && forall i :: 0 <= i < |es| ==> sts[i] == Other(es[i])
  {
    seq(|es|, i requires 0 <= i < |es| => Other(es[i]))
  }

  /** The loop hinders nobody: every run of the protocol that leaves its name alone can take place around it. */
  lemma {:induction false} OthersAreFree(op: nat, tenant: string, w: Scene, es: seq<Event>)
    requires Run(w.s, es).Some?
    requires forall e :: e in es && (e.RevokeRead? || e.RevokeWrite? || e.RevokeFail?) ==> e.op != op
    ensures Play(op, tenant, w, Others(es)) == Some(Scene(Run(w.s, es).value, w.loop))
    decreases |es|
  {
    if es != [] {
      assert es[0] in es && Others(es)[0] == Other(es[0]);
      var w1 := Scene(Apply(w.s, es[0]).value, w.loop);
      assert Take(op, tenant, w, Other(es[0])) == Some(w1);
      assert Others(es)[1..] == Others(es[1..]);
      OthersAreFree(op, tenant, w1, es[1..]);
    }
  }

  // ----- the loop stays inside the protocol, and inside its tenant

  /** The bucket has a record of the hash, and it is the tenant's. */
  ghost predicate Owned(log: Log, hash: string, tenant: string) {
    exists i :: 0 <= i < |log| && log[i].hash == hash && log[i].tenant == tenant
  }

  ghost predicate AllOwned(log: Log, hashes: seq<string>, tenant: string) {
    forall i {:trigger hashes[i]} :: 0 <= i < |hashes| ==> Owned(log, hashes[i], tenant)
  }

  /** What the loop has listed is the tenant's, and a revocation it has begun is of the hash it is at. */
  ghost predicate LoopOk(op: nat, tenant: string, w: Scene) {
    && Inv(w.s)
    && (op in w.s.revoking ==> w.loop.Revoking? && w.loop.left != [] && w.s.revoking[op].hash == w.loop.left[0])
    && (w.loop.Listing? ==> AllOwned(w.s.log, w.loop.got, tenant))
    && (w.loop.Revoking? ==> AllOwned(w.s.log, w.loop.left, tenant))
  }

  lemma OwnedGrows(log: Log, log': Log, hashes: seq<string>, tenant: string)
    requires log <= log' && AllOwned(log, hashes, tenant)
    ensures AllOwned(log', hashes, tenant)
  {
    forall k | 0 <= k < |hashes| ensures Owned(log', hashes[k], tenant) {
      var i :| 0 <= i < |log| && log[i].hash == hashes[k] && log[i].tenant == tenant;
      assert log'[i] == log[i];
    }
  }

  /** All records of an owned hash are the tenant's. */
  lemma OwnedIsTenants(log: Log, hash: string, tenant: string, k: Record)
    requires HashNamesKey(log) && Owned(log, hash, tenant) && Known(log, k) && k.hash == hash
    ensures k.tenant == tenant
  {
    var i :| 0 <= i < |log| && log[i].hash == hash && log[i].tenant == tenant;
    var j :| 0 <= j < |log| && SameKey(log[j], k);
    assert i == j || i < j || j < i;
  }

  lemma KeepIsOwned(s: State, from: string, hash: string, fails: bool, tenant: string)
    requires Serves(s, from)
    ensures AllOwned(s.log, Keep(View(s, from), hash, fails, tenant), tenant)
  {
    var view := View(s, from);
    if Latest(view, hash).Some? {
      var i := LatestIndex(view, hash);
      assert s.log[i] == view[i];
    }
  }

  lemma OtherKeepsLoop(op: nat, tenant: string, w: Scene, e: Event)
    requires LoopOk(op, tenant, w) && Take(op, tenant, w, Other(e)).Some?
    ensures LoopOk(op, tenant, Take(op, tenant, w, Other(e)).value)
    ensures w.s.log <= Take(op, tenant, w, Other(e)).value.s.log
  {
    var s' := Apply(w.s, e).value;
    StepKeepsInv(w.s, e);
    if w.loop.Listing? {
      OwnedGrows(w.s.log, s'.log, w.loop.got, tenant);
    } else if w.loop.Revoking? {
      OwnedGrows(w.s.log, s'.log, w.loop.left, tenant);
    }
  }

  lemma OwnKeepsLoop(op: nat, tenant: string, w: Scene, st: Step)
    requires LoopOk(op, tenant, w) && !st.Other? && Take(op, tenant, w, st).Some?
    ensures LoopOk(op, tenant, Take(op, tenant, w, st).value) && w.s.log <= Take(op, tenant, w, st).value.s.log
  {
    match st {
      case ReadListed(from, fails) => KeepIsOwned(w.s, from, w.loop.todo[0], fails, tenant);
      case Look(from) =>
        if Latest(View(w.s, from), w.loop.left[0]).Some? {
          StepKeepsInv(w.s, RevokeRead(op, w.loop.left[0], from));
          LatestIn(View(w.s, from), w.loop.left[0]);
        }
      case Stamp(now) =>
        var s' := Apply(w.s, RevokeWrite(op, now)).value;
        StepKeepsInv(w.s, RevokeWrite(op, now));
        OwnedGrows(w.s.log, s'.log, w.loop.left[1..], tenant);
      case GiveUp =>
        assert RevokingOk(w.s.log, w.s.revoking - {op});
      case _ =>
    }
  }

  lemma StepKeepsLoop(op: nat, tenant: string, w: Scene, st: Step)
    requires LoopOk(op, tenant, w) && Take(op, tenant, w, st).Some?
    ensures LoopOk(op, tenant, Take(op, tenant, w, st).value) && w.s.log <= Take(op, tenant, w, st).value.s.log
  {
    if st.Other? {
      OtherKeepsLoop(op, tenant, w, st.e);
    } else {
      OwnKeepsLoop(op, tenant, w, st);
    }
  }

  /** The loop writes one record at a time, revoked, and of its own tenant: whatever goes on around it, it never
      touches another tenant's key. */
  lemma StampsOwnTenant(op: nat, tenant: string, w: Scene, now: nat)
    requires LoopOk(op, tenant, w) && Take(op, tenant, w, Stamp(now)).Some?
    ensures var log' := Take(op, tenant, w, Stamp(now)).value.s.log;
            && |log'| == |w.s.log| + 1 && w.s.log <= log'
            && log'[|w.s.log|].tenant == tenant && !log'[|w.s.log|].Active()
            && log'[|w.s.log|].hash == w.loop.left[0]
  {
    OwnedIsTenants(w.s.log, w.loop.left[0], tenant, w.s.revoking[op]);
  }

  // ----- what it revokes for certain

  /** The hash is revoked, or the loop will come to it. */
  ghost predicate WillRevoke(w: Scene, hash: string) {
    match w.loop
    case Idle => true
    case Listing(todo, got) => hash in todo || hash in got
    case Revoking(left) => Revoked(w.s.log, hash) || hash in left
    case Done => Revoked(w.s.log, hash)
  }

  lemma TakeKeepsVisible(op: nat, tenant: string, w: Scene, st: Step, hash: string)
    requires LoopOk(op, tenant, w) && Take(op, tenant, w, st).Some? && Visible(w.s, hash)
    ensures Visible(Take(op, tenant, w, st).value.s, hash)
  {
    var s' := Take(op, tenant, w, st).value.s;
    match st {
      case Other(e) => VisibleStep(w.s, e, hash);
      case Look(from) =>
        if Latest(View(w.s, from), w.loop.left[0]).Some? {
          VisibleStep(w.s, RevokeRead(op, w.loop.left[0], from), hash);
        }
      case Stamp(now) => VisibleStep(w.s, RevokeWrite(op, now), hash);
      case _ =>
        forall r | Serves(s', r) ensures Latest(View(s', r), hash).Some? {
          assert Serves(w.s, r) && View(s', r) == View(w.s, r);
        }
    }
  }

  lemma VisibleIsTenants(s: State, from: string, hash: string, tenant: string)
    requires Inv(s) && Visible(s, hash) && Serves(s, from) && Owned(s.log, hash, tenant)
    ensures Keep(View(s, from), hash, false, tenant) == [hash]
  {
    LatestIn(View(s, from), hash);
    var k := Latest(View(s, from), hash).value;
    var i :| 0 <= i < |View(s, from)| && View(s, from)[i] == k;
    assert s.log[i] == k && SameKey(s.log[i], k);
    OwnedIsTenants(s.log, hash, tenant, k);
  }

  lemma TakeWillRevoke(op: nat, tenant: string, w: Scene, st: Step, hash: string)
    requires LoopOk(op, tenant, w) && Take(op, tenant, w, st).Some? && !Fails(st)
    requires Visible(w.s, hash) && Owned(w.s.log, hash, tenant) && WillRevoke(w, hash)
    ensures WillRevoke(Take(op, tenant, w, st).value, hash)
  {
    var w' := Take(op, tenant, w, st).value;
    StepKeepsLoop(op, tenant, w, st);
    if Revoked(w.s.log, hash) {
      RevokedGrows(w.s.log, w'.s.log, hash);
    }
    match st {
      case List(from) => InKeys(View(w.s, from), hash);
      case ReadListed(from, fails) => ReadKeepsListed(w, from, hash, tenant);
      case Look(from) =>
        assert w.loop.left == [w.loop.left[0]] + w.loop.left[1..];
      case Stamp(now) =>
        assert w.loop.left == [w.loop.left[0]] + w.loop.left[1..];
        StampsOwnTenant(op, tenant, w, now);
        if w.loop.left[0] == hash {
          assert w'.s.log[|w.s.log|].hash == hash;
        }
      case _ =>
    }
  }

  lemma ReadKeepsListed(w: Scene, from: string, hash: string, tenant: string)
    requires Inv(w.s) && w.loop.Listing? && w.loop.todo != [] && Serves(w.s, from)
    requires Visible(w.s, hash) && Owned(w.s.log, hash, tenant) && (hash in w.loop.todo || hash in w.loop.got)
    ensures hash in w.loop.todo[1..] || hash in w.loop.got + Keep(View(w.s, from), w.loop.todo[0], false, tenant)
  {
    assert w.loop.todo == [w.loop.todo[0]] + w.loop.todo[1..];
    if w.loop.todo[0] == hash {
      VisibleIsTenants(w.s, from, hash, tenant);
    }
  }

  lemma {:induction false} PlayRevokes(op: nat, tenant: string, w: Scene, sts: seq<Step>, hash: string)
    requires LoopOk(op, tenant, w) && Play(op, tenant, w, sts).Some? && forall st :: st in sts ==> !Fails(st)
    requires Visible(w.s, hash) && Owned(w.s.log, hash, tenant) && WillRevoke(w, hash)
    ensures WillRevoke(Play(op, tenant, w, sts).value, hash)
    decreases |sts|
  {
    if sts != [] {
      var w1 := Take(op, tenant, w, sts[0]).value;
      assert sts[0] in sts;
      StepKeepsLoop(op, tenant, w, sts[0]);
      TakeKeepsVisible(op, tenant, w, sts[0], hash);
      TakeWillRevoke(op, tenant, w, sts[0], hash);
      OwnedGrows(w.s.log, w1.s.log, [hash], tenant);
      assert Owned(w1.s.log, [hash][0], tenant);
      PlayRevokes(op, tenant, w1, sts[1..], hash);
    }
  }

  // ----- and what it can miss

  /** The first of a step and the rest. */
  lemma PlayCons(op: nat, tenant: string, w: Scene, st: Step, w1: Scene, sts: seq<Step>, w': Scene)
    requires Take(op, tenant, w, st) == Some(w1) && Play(op, tenant, w1, sts) == Some(w')
    ensures Play(op, tenant, w, [st] + sts) == Some(w')
  {
    assert ([st] + sts)[1..] == sts;
  }

  ghost predicate Smooth(sts: seq<Step>) {
    forall st :: st in sts ==> !Fails(st)
  }

  /** A read of RevokeKey, through one replica: the hash is passed over, or its revocation begins. */
  lemma LookThrough(op: nat, tenant: string, w: Scene, from: string) returns (w': Scene)
    requires LoopOk(op, tenant, w) && w.loop.Revoking? && w.loop.left != [] && op !in w.s.revoking && Serves(w.s, from)
    ensures Take(op, tenant, w, Look(from)) == Some(w') && LoopOk(op, tenant, w')
    ensures w'.s.log == w.s.log && Serves(w'.s, from)
    ensures if op in w'.s.revoking then w'.loop == w.loop else w'.loop == Revoking(w.loop.left[1..])
  {
    w' := Take(op, tenant, w, Look(from)).value;
    StepKeepsLoop(op, tenant, w, Look(from));
  }

  /** The write that follows revokes no other hash. */
  lemma StampSpares(op: nat, tenant: string, w: Scene, from: string, hash: string) returns (w': Scene)
    requires LoopOk(op, tenant, w) && op in w.s.revoking && Serves(w.s, from)
    requires hash != w.loop.left[0] && !Revoked(w.s.log, hash)
    ensures Take(op, tenant, w, Stamp(1)) == Some(w') && LoopOk(op, tenant, w')
    ensures w'.loop == Revoking(w.loop.left[1..]) && op !in w'.s.revoking && Serves(w'.s, from)
    ensures !Revoked(w'.s.log, hash)
  {
    w' := Take(op, tenant, w, Stamp(1)).value;
    StepKeepsLoop(op, tenant, w, Stamp(1));
    StampsOwnTenant(op, tenant, w, 1);
    assert w'.s.log == w.s.log + [w'.s.log[|w.s.log|]];
  }

  /** One round of the loop through one replica: the first hash left is dealt with, and no other is touched. */
  lemma OneRound(op: nat, tenant: string, w: Scene, from: string, hash: string) returns (sts: seq<Step>, w': Scene)
    requires LoopOk(op, tenant, w) && w.loop.Revoking? && w.loop.left != [] && op !in w.s.revoking && Serves(w.s, from)
    requires hash != w.loop.left[0] && !Revoked(w.s.log, hash)
    ensures Play(op, tenant, w, sts) == Some(w') && Smooth(sts)
    ensures LoopOk(op, tenant, w') && w'.loop == Revoking(w.loop.left[1..]) && op !in w'.s.revoking && Serves(w'.s, from)
    ensures !Revoked(w'.s.log, hash)
  {
    var w1 := LookThrough(op, tenant, w, from);
    if op in w1.s.revoking {
      w' := StampSpares(op, tenant, w1, from, hash);
      PlayCons(op, tenant, w1, Stamp(1), w', [], w');
      PlayCons(op, tenant, w, Look(from), w1, [Stamp(1)] + [], w');
      sts := [Look(from)] + ([Stamp(1)] + []);
    } else {
      w' := w1;
      PlayCons(op, tenant, w, Look(from), w1, [], w');
      sts := [Look(from)] + [];
    }
  }

  lemma {:induction false} PlayThen(op: nat, tenant: string, w: Scene, sts: seq<Step>, w1: Scene, more: seq<Step>)
    requires Play(op, tenant, w, sts) == Some(w1)
    ensures Play(op, tenant, w, sts + more) == Play(op, tenant, w1, more)
    decreases |sts|
  {
    if sts == [] {
      assert sts + more == more;
    } else {
      assert (sts + more)[1..] == sts[1..] + more;
      PlayThen(op, tenant, Take(op, tenant, w, sts[0]).value, sts[1..], w1, more);
    }
  }

  /** The rest of the revocations, through one replica and undisturbed, leaves a hash that is not listed alone. */
  lemma {:induction false} RevokeRest(op: nat, tenant: string, w: Scene, from: string, hash: string) returns (sts: seq<Step>, w': Scene)
    requires LoopOk(op, tenant, w) && w.loop.Revoking? && op !in w.s.revoking && Serves(w.s, from)
    requires hash !in w.loop.left && !Revoked(w.s.log, hash)
    ensures Play(op, tenant, w, sts) == Some(w') && Smooth(sts)
    ensures w'.loop == Done && !Revoked(w'.s.log, hash)
    decreases |w.loop.left|
  {
    if w.loop.left == [] {
      w' := w.(loop := Done);
      sts := [Finish] + [];
      PlayCons(op, tenant, w, Finish, w', [], w');
    } else {
      assert w.loop.left == [w.loop.left[0]] + w.loop.left[1..];
      var round, w1 := OneRound(op, tenant, w, from, hash);
      var rest;
      rest, w' := RevokeRest(op, tenant, w1, from, hash);
      PlayThen(op, tenant, w, round, w1, rest);
      sts := round + rest;
    }
  }

  lemma {:induction false} ListRest(op: nat, tenant: string, w: Scene, from: string, hash: string) returns (sts: seq<Step>, w': Scene)
    requires LoopOk(op, tenant, w) && w.loop.Listing? && op !in w.s.revoking && Serves(w.s, from)
    requires hash !in w.loop.todo && hash !in w.loop.got && !Revoked(w.s.log, hash)
    ensures Play(op, tenant, w, sts) == Some(w') && Smooth(sts)
    ensures w'.loop == Done && !Revoked(w'.s.log, hash)
    decreases |w.loop.todo|
  {
    var st := if w.loop.todo == [] then Listed else ReadListed(from, false);
    var w1 := Take(op, tenant, w, st).value;
    StepKeepsLoop(op, tenant, w, st);
    var rest;
    if w.loop.todo == [] {
      rest, w' := RevokeRest(op, tenant, w1, from, hash);
    } else {
      assert w.loop.todo == [w.loop.todo[0]] + w.loop.todo[1..];
      rest, w' := ListRest(op, tenant, w1, from, hash);
    }
    PlayCons(op, tenant, w, st, w1, rest, w');
    sts := [st] + rest;
  }

  // ----- exactly

  /** Every run of the loop that meets no failure ends with the hash revoked. */
  ghost predicate AlwaysRevoked(op: nat, tenant: string, s: State, hash: string) {
    forall sts {:trigger Play(op, tenant, Scene(s, Idle), sts)} ::
      Smooth(sts) && Play(op, tenant, Scene(s, Idle), sts).Some? && Play(op, tenant, Scene(s, Idle), sts).value.loop.Done? ==>
        Revoked(Play(op, tenant, Scene(s, Idle), sts).value.s.log, hash)
  }

  /** A key of the tenant that is not revoked yet is revoked by every failure-free run of the loop, whatever goes
      on around it, exactly when every replica of the bucket has the key's record as the loop begins. */
  lemma RevokedIffVisible(op: nat, tenant: string, s: State, hash: string)
    requires Inv(s) && op !in s.revoking && Owned(s.log, hash, tenant) && !Revoked(s.log, hash)
    ensures AlwaysRevoked(op, tenant, s, hash) <==> Visible(s, hash)
  {
    var w := Scene(s, Idle);
    if Visible(s, hash) {
      forall sts | Smooth(sts) && Play(op, tenant, w, sts).Some? && Play(op, tenant, w, sts).value.loop.Done?
        ensures Revoked(Play(op, tenant, w, sts).value.s.log, hash)
      {
        PlayRevokes(op, tenant, w, sts, hash);
      }
    } else {
      var r :| Serves(s, r) && Latest(View(s, r), hash).None?;
      InKeys(View(s, r), hash);
      var w1 := Take(op, tenant, w, List(r)).value;
      var rest, w' := ListRest(op, tenant, w1, r, hash);
      PlayCons(op, tenant, w, List(r), w1, rest, w');
      assert Smooth([List(r)] + rest);
      assert Play(op, tenant, Scene(s, Idle), [List(r)] + rest) == Some(w');
    }
  }
}
