/** How issuing and revoking reach the adapters' caches, through polls that any replica may answer. */
module KeyReach {
  import opened Wrappers
  import opened KeyRecords
  import opened KeyProtocol

  // ----- revocations

  /** Every replica shows a revocation of the hash. */
  ghost predicate Shown(s: State, hash: string) {
    forall r :: Serves(s, r) ==> Revoked(View(s, r), hash)
  }

  ghost predicate NotCollected(s: State, adapter: string, hash: string) {
    adapter in s.polling ==>
      forall i :: 0 <= i < |s.polling[adapter].got| ==>
        s.polling[adapter].got[i].hash == hash ==> !s.polling[adapter].got[i].Active()
  }

  ghost predicate Dropped(s: State, adapter: string, hash: string) {
    adapter in s.caches ==> hash !in s.caches[adapter]
  }

  lemma ShownStep(s: State, e: Event, hash: string)
    requires Inv(s) && Apply(s, e).Some? && Shown(s, hash)
    ensures Shown(Apply(s, e).value, hash)
  {
    var s' := Apply(s, e).value;
    StepKeepsInv(s, e);
    forall r | Serves(s', r) ensures Revoked(View(s', r), hash) {
      assert Serves(s, r) && View(s, r) <= View(s', r);
      RevokedGrows(View(s, r), View(s', r), hash);
    }
  }

  lemma NotCollectedStep(s: State, e: Event, adapter: string, hash: string)
    requires Inv(s) && Apply(s, e).Some? && Shown(s, hash) && NotCollected(s, adapter, hash)
    ensures NotCollected(Apply(s, e).value, adapter, hash)
  {
    if e.PollRead? && e.adapter == adapter {
      var h := s.polling[adapter].todo[0];
      var view := View(s, e.from);
      RevokedIsLatest(view, hash);
      if Latest(view, h).Some? {
        LatestIn(view, h);
      }
    }
  }

  lemma DroppedStep(s: State, e: Event, adapter: string, hash: string)
    requires Apply(s, e).Some? && NotCollected(s, adapter, hash)
    ensures Dropped(s, adapter, hash) ==> Dropped(Apply(s, e).value, adapter, hash)
    ensures e == PollDone(adapter) ==> Dropped(Apply(s, e).value, adapter, hash)
  {
    if e == PollDone(adapter) {
      ActiveMapMeaning(s.polling[adapter].got, hash);
    }
  }

  lemma {:induction false} StaysDropped(s: State, es: seq<Event>, adapter: string, hash: string)
    requires Inv(s) && Run(s, es).Some? && Shown(s, hash) && NotCollected(s, adapter, hash)
    ensures var s' := Run(s, es).value;
            && Inv(s') && Shown(s', hash) && NotCollected(s', adapter, hash)
            && (Dropped(s, adapter, hash) || PollDone(adapter) in es ==> Dropped(s', adapter, hash))
    decreases |es|
  {
    if es != [] {
      var s1 := Apply(s, es[0]).value;
      StepKeepsInv(s, es[0]);
      ShownStep(s, es[0], hash);
      NotCollectedStep(s, es[0], adapter, hash);
      DroppedStep(s, es[0], adapter, hash);
      StaysDropped(s1, es[1..], adapter, hash);
    }
  }

  /** Once every replica shows the revocation, the first poll an adapter completes after that (having begun
      after that) drops the hash from its cache, and it stays out for the rest of any run. */
  lemma RevocationReachesAdapters(s: State, es: seq<Event>, adapter: string, hash: string)
    requires Inv(s) && Run(s, es).Some? && Shown(s, hash) && adapter !in s.polling
    requires adapter in s.caches && PollDone(adapter) in es
    ensures var s' := Run(s, es).value; adapter in s'.caches ==> hash !in s'.caches[adapter]
  {
    StaysDropped(s, es, adapter, hash);
  }

  // ----- new keys

  /** Every replica has a record for the hash. */
  ghost predicate Visible(s: State, hash: string) {
    forall r :: Serves(s, r) ==> Latest(View(s, r), hash).Some?
  }

  ghost predicate HasActive(got: seq<Record>, hash: string) {
    exists i :: 0 <= i < |got| && got[i].hash == hash && got[i].Active()
  }

  /** A poll in progress has the hash's record or is still going to read it. */
  ghost predicate Gathers(s: State, adapter: string, hash: string) {
    adapter in s.polling ==> hash in s.polling[adapter].todo || HasActive(s.polling[adapter].got, hash)
  }

  ghost predicate Accepts(s: State, adapter: string, hash: string) {
    adapter in s.caches && hash in s.caches[adapter]
  }

  predicate ReadFails(e: Event, adapter: string) {
    e.PollRead? && e.adapter == adapter && e.fails
  }

  lemma VisibleStep(s: State, e: Event, hash: string)
    requires Inv(s) && Apply(s, e).Some? && Visible(s, hash)
    ensures Visible(Apply(s, e).value, hash)
  {
    var s' := Apply(s, e).value;
    StepKeepsInv(s, e);
    forall r | Serves(s', r) ensures Latest(View(s', r), hash).Some? {
      assert Serves(s, r) && View(s, r) <= View(s', r);
      var i := LatestIndex(View(s, r), hash);
      var j := LatestIndex(View(s', r), hash);
      assert View(s', r)[i].hash == hash;
    }
  }

  lemma ViewIsActive(s: State, r: string, hash: string)
    requires Inv(s) && Visible(s, hash) && Serves(s, r) && !Revoked(s.log, hash)
    ensures ActiveIn(View(s, r), hash)
  {
    RevokedIsLatest(View(s, r), hash);
    if Revoked(View(s, r), hash) {
      RevokedGrows(View(s, r), s.log, hash);
    }
  }

  lemma GathersStep(s: State, e: Event, adapter: string, hash: string)
    requires Inv(s) && Apply(s, e).Some? && Visible(s, hash) && !Revoked(s.log, hash) && !ReadFails(e, adapter)
    requires Gathers(s, adapter, hash)
    ensures Gathers(Apply(s, e).value, adapter, hash)
  {
    if e.PollList? && e.adapter == adapter {
      InKeys(View(s, e.from), hash);
    } else if e.PollRead? && e.adapter == adapter {
      ViewIsActive(s, e.from, hash);
      LatestIn(View(s, e.from), hash);
      GathersRead(s.polling[adapter], View(s, e.from), hash);
    }
  }

  lemma GathersRead(p: Poll, view: Log, hash: string)
    requires p.todo != [] && (hash in p.todo || HasActive(p.got, hash))
    requires ActiveIn(view, hash) && Latest(view, hash).value.hash == hash
    ensures hash in ReadOne(p, view, false).todo || HasActive(ReadOne(p, view, false).got, hash)
  {
    var p' := ReadOne(p, view, false);
    if HasActive(p.got, hash) {
      var i :| 0 <= i < |p.got| && p.got[i].hash == hash && p.got[i].Active();
      assert p'.got[i] == p.got[i];
    } else if p.todo[0] == hash {
      assert p'.got[|p.got|] == Latest(view, hash).value;
    }
  }

  lemma AcceptsStep(s: State, e: Event, adapter: string, hash: string)
    requires Apply(s, e).Some? && Gathers(s, adapter, hash)
    ensures Accepts(s, adapter, hash) ==> Accepts(Apply(s, e).value, adapter, hash)
    ensures e == PollDone(adapter) && adapter in s.caches ==> Accepts(Apply(s, e).value, adapter, hash)
  {
    if e == PollDone(adapter) {
      ActiveMapMeaning(s.polling[adapter].got, hash);
    }
  }

  lemma {:induction false} StaysAccepted(s: State, es: seq<Event>, adapter: string, hash: string)
    requires Inv(s) && Run(s, es).Some? && Visible(s, hash) && Gathers(s, adapter, hash) && adapter in s.caches
    requires !Revoked(Run(s, es).value.log, hash)
    requires forall e :: e in es ==> !ReadFails(e, adapter)
    ensures Accepts(s, adapter, hash) || PollDone(adapter) in es ==> Accepts(Run(s, es).value, adapter, hash)
    decreases |es|
  {
    RunKeepsInv(s, es);
    if Revoked(s.log, hash) {
      RevokedGrows(s.log, Run(s, es).value.log, hash);
    }
    if es != [] {
      assert es[0] in es;
      StepKeepsInv(s, es[0]);
      VisibleStep(s, es[0], hash);
      GathersStep(s, es[0], adapter, hash);
      AcceptsStep(s, es[0], adapter, hash);
      StaysAccepted(Apply(s, es[0]).value, es[1..], adapter, hash);
    }
  }

  /** Once every replica has the record of a key that is never revoked, an adapter that completes a poll
      without failed reads accepts the key, and keeps accepting it, for the tenant it was issued to. */
  lemma IssuedKeyReachesAdapters(s: State, es: seq<Event>, adapter: string, hash: string)
    requires Inv(s) && Run(s, es).Some? && Visible(s, hash) && adapter !in s.polling
    requires adapter in s.caches && PollDone(adapter) in es
    requires !Revoked(Run(s, es).value.log, hash)
    requires forall e :: e in es && e.PollRead? && e.adapter == adapter ==> !e.fails
    ensures var s' := Run(s, es).value;
            Accepts(s', adapter, hash) && Issued(s'.log, hash, s'.caches[adapter][hash])
  {
    StaysAccepted(s, es, adapter, hash);
    RunKeepsInv(s, es);
  }
}
