/** What callers of the counter may rely on, over all runs. */
module CounterRuns {
  import opened Wrappers
  import opened StreamLog
  import opened Decimal
  import opened CounterProtocol
  import opened CounterSafety

  ghost predicate Reachable(key: string, s: State) {
    exists es :: Run(key, Init, es) == Some(s)
  }

  lemma InitInv(key: string)
    ensures Inv(key, Init)
  {
    forall c: nat ensures Count(Init.authors, c) == Hits(Init.results, c, ATTEMPTS) {
      NoHitsIffNotApplied(map[], c, ATTEMPTS);
    }
  }

  lemma ReachableInv(key: string, s: State)
    requires Reachable(key, s)
    ensures Inv(key, s)
  {
    var es :| Run(key, Init, es) == Some(s);
    InitInv(key);
    RunKeepsInv(key, Init, es);
  }

  lemma ValueOfPrefix(key: string, s: State, n: nat)
    requires Inv(key, s) && n <= |s.log|
    ensures Observed(s.log[..n], key).0 == Wrap64(Sum(key, s.log, s.authors, n))
  {
    var r := LastRev(s.log[..n], key);
    SumStays(key, s.log, s.authors, r, n);
    if r > 0 {
      assert EntryOk(key, s.log, s.authors, r - 1);
      ParseFormatInt(Wrap64(Sum(key, s.log, s.authors, r)));
    }
  }

  /** In every run, however stale the reads were, the counter reads as the wrapped sum of the increments
      applied since it was last deleted or overwritten, on top of what was written. */
  lemma CounterIsSum(key: string, s: State)
    requires Reachable(key, s)
    ensures |s.log| == |s.authors|
    ensures Observed(s.log, key).0 == Wrap64(Sum(key, s.log, s.authors, |s.log|))
  {
    ReachableInv(key, s);
    ValueOfPrefix(key, s, |s.log|);
    assert s.log[..|s.log|] == s.log;
  }

  /** A 200 carries a value that really was current at its revision, and is the previous current value
      plus this caller's own delta. */
  lemma IncrementAnswer(key: string, s: State, c: nat)
    requires Reachable(key, s) && c < |s.callers|
    requires s.callers[c].pc.Returned? && s.callers[c].pc.resp.Applied?
    ensures var r := s.callers[c].pc.resp;
            && 1 <= r.rev <= |s.log|
            && Get(s.log[..r.rev], key) == Found(r.rev, FormatInt(r.value))
            && r.value == Wrap64(Observed(s.log[..r.rev - 1], key).0 + s.callers[c].delta)
  {
    ReachableInv(key, s);
    var r := s.callers[c].pc.resp;
    assert CallerOk(key, s, c);
    assert ResultOk(key, s, (c, s.callers[c].attempt));
    assert EntryOk(key, s.log, s.authors, r.rev - 1);
    ValueOfPrefix(key, s, r.rev - 1);
    WrapAdd(Sum(key, s.log, s.authors, r.rev - 1), s.callers[c].delta);
  }

  lemma {:induction false} HitsBound(results: map<(nat, nat), Option<nat>>, c: nat, n: nat)
    ensures Hits(results, c, n) <= n
  {
    if n > 0 {
      HitsBound(results, c, n - 1);
    }
  }

  /** Even when acks are lost, one call adds its delta at most five times. */
  lemma AtMostFiveTimes(key: string, s: State, c: nat)
    requires Reachable(key, s)
    ensures Count(s.authors, c) <= 5
  {
    ReachableInv(key, s);
    HitsBound(s.results, c, ATTEMPTS);
  }

  // ----- a put error that means "not applied"

  /** None of caller c's attempts that ended in a put error was applied. */
  ghost predicate ErrorsNotApplied(s: State, c: nat) {
    c < |s.callers| ==>
      forall a: nat {:trigger (c, a) in s.results} :: a < s.callers[c].attempt && (c, a) in s.results ==> s.results[(c, a)].None?
  }

  /** How many of caller c's attempts ended in a put error but were applied, at most n of them. */
  lemma {:induction false} NoHitsIffNotApplied(results: map<(nat, nat), Option<nat>>, c: nat, n: nat)
    ensures Hits(results, c, n) == 0
            <==> forall a: nat {:trigger (c, a) in results} :: a < n && (c, a) in results ==> results[(c, a)].None?
  {
    if n > 0 {
      NoHitsIffNotApplied(results, c, n - 1);
    }
  }

  /** A returned call has no attempts under way beyond its last one, and its last one counts if it answered 200. */
  lemma {:induction false} HitsOfReturned(key: string, s: State, c: nat, n: nat)
    requires Inv(key, s) && c < |s.callers| && s.callers[c].pc.Returned? && s.callers[c].attempt <= n <= ATTEMPTS
    ensures Hits(s.results, c, n)
            == Hits(s.results, c, s.callers[c].attempt)
               + if s.callers[c].pc.resp.Applied? && s.callers[c].attempt < n then 1 else 0
    decreases n
  {
    var last := s.callers[c].attempt;
    if n > last {
      HitsOfReturned(key, s, c, n - 1);
      assert CallerOk(key, s, c);
      assert (c, n - 1) in s.results ==> ResultOk(key, s, (c, n - 1));
    }
  }

  lemma AppliedBeforeLast(key: string, s: State, c: nat)
    requires Inv(key, s) && c < |s.callers| && s.callers[c].pc.Returned? && s.callers[c].pc.resp.Applied?
    ensures s.callers[c].attempt < ATTEMPTS
  {
    assert CallerOk(key, s, c);
    assert ResultOk(key, s, (c, s.callers[c].attempt));
  }

  /** A returned call has added its delta exactly once if it answered 200 and not at all otherwise, exactly
      when none of its own put errors hid an applied write. Other callers' errors do not matter. */
  lemma ExactlyOnce(key: string, s: State, c: nat)
    requires Reachable(key, s) && c < |s.callers| && s.callers[c].pc.Returned?
    ensures Count(s.authors, c) == (if s.callers[c].pc.resp.Applied? then 1 else 0) <==> ErrorsNotApplied(s, c)
  {
    ReachableInv(key, s);
    assert CallerOk(key, s, c);
    if s.callers[c].pc.resp.Applied? {
      AppliedBeforeLast(key, s, c);
    }
    HitsOfReturned(key, s, c, ATTEMPTS);
    NoHitsIffNotApplied(s.results, c, s.callers[c].attempt);
  }

  // ----- what the caller can see for itself: every one of its put errors was the server's refusal

  predicate NeverGaveUp(es: seq<Event>, c: nat) {
    forall e :: e in es ==> e != GiveUp(c)
  }

  ghost predicate EarlierRejected(s: State, c: nat) {
    c < |s.callers| ==>
      forall a: nat {:trigger (c, a) in s.results} :: a < s.callers[c].attempt ==>
        (c, a) in s.results && s.results[(c, a)].None?
  }

  lemma StepRejected(key: string, s: State, e: Event, c: nat)
    requires Inv(key, s) && EarlierRejected(s, c) && Apply(key, s, e).Some? && e != GiveUp(c)
    ensures EarlierRejected(Apply(key, s, e).value, c)
  {
    var s' := Apply(key, s, e).value;
    if e.Deliver? {
      assert WireOk(key, s, (e.c, e.attempt));
    }
    forall a: nat | c < |s'.callers| && a < s'.callers[c].attempt
      ensures (c, a) in s'.results && s'.results[(c, a)].None?
    {
      assert c < |s.callers| && a < s.callers[c].attempt ==> (c, a) in s.results;
    }
  }

  lemma {:induction false} RunRejected(key: string, s: State, es: seq<Event>, c: nat)
    requires Inv(key, s) && EarlierRejected(s, c) && Run(key, s, es).Some? && NeverGaveUp(es, c)
    ensures EarlierRejected(Run(key, s, es).value, c)
    decreases |es|
  {
    if es != [] {
      assert es[0] in es && forall e :: e in es[1..] ==> e in es;
      StepRejected(key, s, es[0], c);
      StepKeepsInv(key, s, es[0]);
      RunRejected(key, Apply(key, s, es[0]).value, es[1..], c);
    }
  }

  /** Refusals hide nothing: a call that got an answer to each of its puts counted exactly once or not at all,
      whatever other calls lost. */
  lemma RefusalsAreNotApplied(key: string, es: seq<Event>, s: State, c: nat)
    requires Run(key, Init, es) == Some(s) && NeverGaveUp(es, c)
    ensures ErrorsNotApplied(s, c)
  {
    InitInv(key);
    RunRejected(key, Init, es, c);
  }

  // ----- the grand total

  function TotalApplied(authors: seq<Author>): int {
    if authors == [] then 0
    else TotalApplied(authors[..|authors| - 1])
         + if authors[|authors| - 1].By? then authors[|authors| - 1].delta else 0
  }

  ghost function Gains(results: map<(nat, nat), Option<nat>>, callers: seq<Caller>): int {
    if callers == [] then 0
    else Gains(results, callers[..|callers| - 1]) + Hits(results, |callers| - 1, ATTEMPTS) * callers[|callers| - 1].delta
  }

  lemma {:induction false} GainsUpdate(results: map<(nat, nat), Option<nat>>, id: (nat, nat), r: Option<nat>, callers: seq<Caller>)
    requires id !in results && id.1 < ATTEMPTS
    ensures Gains(results[id := r], callers)
            == Gains(results, callers) + if id.0 < |callers| && r.Some? then callers[id.0].delta else 0
  {
    if callers != [] {
      var last := |callers| - 1;
      GainsUpdate(results, id, r, callers[..last]);
      HitsUpdate(results, id, r, last, ATTEMPTS);
    }
  }

  /** Only the deltas of the callers matter. */
  lemma {:induction false} GainsSameDeltas(results: map<(nat, nat), Option<nat>>, ws: seq<Caller>, ws': seq<Caller>)
    requires |ws| == |ws'| && forall c :: 0 <= c < |ws| ==> ws[c].delta == ws'[c].delta
    ensures Gains(results, ws) == Gains(results, ws')
  {
    if ws != [] {
      GainsSameDeltas(results, ws[..|ws| - 1], ws'[..|ws| - 1]);
    }
  }

  ghost predicate Balanced(s: State) {
    TotalApplied(s.authors) == Gains(s.results, s.callers)
  }

  lemma DeliverBalances(key: string, s: State, c: nat, a: nat)
    requires Inv(key, s) && Balanced(s) && (c, a) in s.wire && c < |s.callers|
    ensures Balanced(Receive(key, s, (c, a), s.callers[c].delta))
  {
    var id, d := (c, a), s.callers[c].delta;
    assert WireOk(key, s, id);
    assert (s.authors + [By(c, a, d)])[..|s.authors|] == s.authors;
    GainsUpdate(s.results, id, Receive(key, s, id, d).results[id], s.callers);
  }

  lemma StartBalances(key: string, s: State, delta: int)
    requires Inv(key, s) && Balanced(s)
    ensures Balanced(s.(callers := s.callers + [Caller(delta, 0, Reading)]))
  {
    var n, callers' := |s.callers|, s.callers + [Caller(delta, 0, Reading)];
    assert callers'[..n] == s.callers;
    forall id | id in s.results ensures id.0 != n {
      assert ResultOk(key, s, id);
    }
    NoHitsIffNotApplied(s.results, n, ATTEMPTS);
  }

  lemma CallerBalances(key: string, s: State, s': State)
    requires Balanced(s) && s'.authors == s.authors && s'.results == s.results
    requires |s'.callers| == |s.callers| && forall c :: 0 <= c < |s.callers| ==> s.callers[c].delta == s'.callers[c].delta
    ensures Balanced(s')
  {
    GainsSameDeltas(s.results, s.callers, s'.callers);
  }

  lemma StepBalances(key: string, s: State, e: Event)
    requires Inv(key, s) && Balanced(s) && Apply(key, s, e).Some?
    ensures Balanced(Apply(key, s, e).value)
  {
    if e.Deliver? {
      DeliverBalances(key, s, e.c, e.attempt);
    } else if e.Start? {
      StartBalances(key, s, e.delta);
    } else if e.OtherKey? || e.Delete? || e.Overwrite? {
      assert (s.authors + [Other])[..|s.authors|] == s.authors;
    } else {
      CallerBalances(key, s, Apply(key, s, e).value);
    }
  }

  lemma {:induction false} RunBalances(key: string, s: State, es: seq<Event>)
    requires Inv(key, s) && Balanced(s) && Run(key, s, es).Some?
    ensures Balanced(Run(key, s, es).value)
    decreases |es|
  {
    if es != [] {
      StepBalances(key, s, es[0]);
      StepKeepsInv(key, s, es[0]);
      RunBalances(key, Apply(key, s, es[0]).value, es[1..]);
    }
  }

  lemma {:induction false} SumOfIncrements(key: string, s: State, n: nat)
    requires Inv(key, s) && n <= |s.log|
    requires OnlyIncrements(key, s)
    ensures Sum(key, s.log, s.authors, n) == TotalApplied(s.authors[..n])
  {
    if n > 0 {
      SumOfIncrements(key, s, n - 1);
      assert EntryOk(key, s.log, s.authors, n - 1);
      assert s.authors[..n][..n - 1] == s.authors[..n - 1];
    }
  }

  /** If there is such a call, it has returned and no put error of it hid an applied write. */
  ghost predicate Settled(s: State, c: nat) {
    c < |s.callers| ==> s.callers[c].pc.Returned? && ErrorsNotApplied(s, c)
  }

  /** The sum of the deltas of the calls that answered 200. */
  function Answered(callers: seq<Caller>): int {
    if callers == [] then 0
    else
      var w := callers[|callers| - 1];
      Answered(callers[..|callers| - 1]) + if w.pc.Returned? && w.pc.resp.Applied? then w.delta else 0
  }

  lemma GainOfReturned(key: string, s: State, c: nat)
    requires Inv(key, s) && c < |s.callers| && s.callers[c].pc.Returned? && ErrorsNotApplied(s, c)
    ensures Hits(s.results, c, ATTEMPTS) * s.callers[c].delta
            == if s.callers[c].pc.resp.Applied? then s.callers[c].delta else 0
  {
    assert CallerOk(key, s, c);
    if s.callers[c].pc.resp.Applied? {
      AppliedBeforeLast(key, s, c);
    }
    HitsOfReturned(key, s, c, ATTEMPTS);
    NoHitsIffNotApplied(s.results, c, s.callers[c].attempt);
  }

  lemma {:induction false} GainsOfReturned(key: string, s: State, n: nat)
    requires Inv(key, s) && n <= |s.callers|
    requires forall c: nat :: Settled(s, c)
    ensures Gains(s.results, s.callers[..n]) == Answered(s.callers[..n])
  {
    if n > 0 {
      GainsOfReturned(key, s, n - 1);
      assert Settled(s, n - 1);
      GainOfReturned(key, s, n - 1);
      assert s.callers[..n][..n - 1] == s.callers[..n - 1];
    }
  }

  /** All entries for the key are increments. */
  ghost predicate OnlyIncrements(key: string, s: State) {
    |s.log| == |s.authors| && forall i :: 0 <= i < |s.log| && s.log[i].key == key ==> s.log[i].op.Put? && s.authors[i].By?
  }

  lemma {:induction false} StaysOnlyIncrements(key: string, s: State, es: seq<Event>)
    requires Run(key, s, es).Some? && forall e :: e in es ==> !e.Delete? && !e.Overwrite?
    requires OnlyIncrements(key, s)
    ensures OnlyIncrements(key, Run(key, s, es).value)
    decreases |es|
  {
    if es != [] {
      assert es[0] in es;
      StaysOnlyIncrements(key, Apply(key, s, es[0]).value, es[1..]);
    }
  }

  /** No lost update, no double update: once all calls have returned and none of their put errors hid an
      applied write, the counter of a key that was never deleted or overwritten is exactly the wrapped sum of the deltas of
      the calls that answered 200. */
  lemma AllIncrementsCounted(key: string, es: seq<Event>, s: State)
    requires Run(key, Init, es) == Some(s)
    requires forall e :: e in es ==> !e.Delete? && !e.Overwrite?
    requires forall c: nat :: Settled(s, c)
    ensures Observed(s.log, key).0 == Wrap64(Answered(s.callers))
  {
    ReachableInv(key, s);
    CounterIsSum(key, s);
    StaysOnlyIncrements(key, Init, es);
    InitInv(key);
    RunBalances(key, Init, es);
    SumOfIncrements(key, s, |s.log|);
    assert s.authors[..|s.log|] == s.authors;
    GainsOfReturned(key, s, |s.callers|);
    assert s.callers[..|s.callers|] == s.callers;
  }

  // ----- an attempt that is not overtaken succeeds

  /** A caller about to read has nothing under way for its current attempt. */
  lemma NothingUnderWay(key: string, s: State, c: nat)
    requires Inv(key, s) && c < |s.callers| && s.callers[c].pc.Reading?
    ensures (c, s.callers[c].attempt) !in s.wire && (c, s.callers[c].attempt) !in s.results
  {
    var id := (c, s.callers[c].attempt);
    assert id in s.wire ==> WireOk(key, s, id);
    assert id in s.results ==> ResultOk(key, s, id);
  }

  /** An attempt of caller c on a read of the current state, up to the point where its write is applied. */
  function WriteRun(s: State, c: nat): seq<Event>
    requires c < |s.callers|
  {
    [Read(c, |s.log|)] + [Send(c)] + [Deliver(c, s.callers[c].attempt)]
  }

  /** The state after it. */
  ghost predicate Wrote(key: string, s: State, c: nat, s': State)
    requires c < |s.callers|
  {
    var w, (value, rev) := s.callers[c], Observed(s.log, key);
    var next := Wrap64(value + w.delta);
    && s'.log == s.log + [Entry(key, Put, FormatInt(next))]
    && s'.authors == s.authors + [By(c, w.attempt, w.delta)]
    && s'.callers == s.callers[c := w.(pc := Waiting(next, rev))]
    && s'.results == s.results[(c, w.attempt) := Some(|s.log| + 1)]
  }

  lemma {:induction false} RunThen(key: string, s: State, es: seq<Event>, fs: seq<Event>)
    requires Run(key, s, es).Some?
    ensures Run(key, s, es + fs) == Run(key, Run(key, s, es).value, fs)
    decreases |es|
  {
    if es == [] {
      assert es + fs == fs;
    } else {
      assert (es + fs)[1..] == es[1..] + fs;
      RunThen(key, Apply(key, s, es[0]).value, es[1..], fs);
    }
  }

  lemma UndisturbedWrite(key: string, s: State, c: nat) returns (s': State)
    requires Reachable(key, s) && c < |s.callers| && s.callers[c].pc.Reading?
    ensures Run(key, s, WriteRun(s, c)) == Some(s') && Wrote(key, s, c, s')
  {
    ReachableInv(key, s);
    NothingUnderWay(key, s, c);
    assert s.log[..|s.log|] == s.log;
    var id := (c, s.callers[c].attempt);
    var s1 := Apply(key, s, Read(c, |s.log|)).value;
    var s2 := Apply(key, s1, Send(c)).value;
    RunThen(key, s, [Read(c, |s.log|)], [Send(c)]);
    s' := Apply(key, s2, Deliver(c, id.1)).value;
    RunThen(key, s, [Read(c, |s.log|)] + [Send(c)], [Deliver(c, id.1)]);
  }

  /** From any reachable state, an attempt that reads the current state and is not overtaken before its
      write arrives answers 200 with the current value plus its delta: only contention makes it retry. */
  lemma UndisturbedAttemptSucceeds(key: string, s: State, c: nat) returns (s': State)
    requires Reachable(key, s) && c < |s.callers| && s.callers[c].pc.Reading?
    ensures Run(key, s, WriteRun(s, c) + [Reply(c)]) == Some(s') && c < |s'.callers|
    ensures s'.callers[c].pc
            == Returned(Applied(Wrap64(Observed(s.log, key).0 + s.callers[c].delta), |s.log| + 1))
  {
    var s1 := UndisturbedWrite(key, s, c);
    RunThen(key, s, WriteRun(s, c), [Reply(c)]);
    s' := Apply(key, s1, Reply(c)).value;
  }

  // ----- a lost answer really doubles

  lemma Then(key: string, es: seq<Event>, s: State, e: Event) returns (es': seq<Event>, s': State)
    requires Run(key, Init, es) == Some(s) && Apply(key, s, e).Some?
    ensures es' == es + [e] && Apply(key, s, e) == Some(s') && Run(key, Init, es') == Some(s')
  {
    es', s' := es + [e], Apply(key, s, e).value;
    RunThen(key, Init, es, [e]);
  }

  lemma ThenRun(key: string, es: seq<Event>, s: State, fs: seq<Event>, s': State)
    requires Run(key, Init, es) == Some(s) && Run(key, s, fs) == Some(s')
    ensures Run(key, Init, es + fs) == Some(s') && Reachable(key, s')
  {
    RunThen(key, Init, es, fs);
  }

  /** The first attempt of a lone call: applied, but the answer is lost. */
  lemma FirstAnswerLost(key: string) returns (es: seq<Event>, s: State)
    ensures Run(key, Init, es) == Some(s) && Reachable(key, s)
    ensures s.log == [Entry(key, Put, FormatInt(1))] && s.authors == [By(0, 0, 1)]
    ensures s.callers == [Caller(1, 1, Reading)]
  {
    es, s := Then(key, [], Init, Start(1));
    assert s.callers == [Caller(1, 0, Reading)] && s.log == [] && s.authors == [];
    var s1 := UndisturbedWrite(key, s, 0);
    ThenRun(key, es, s, WriteRun(s, 0), s1);
    assert s1.callers == [Caller(1, 0, Waiting(1, 0))];
    es := es + WriteRun(s, 0);
    assert s1.log == [] + [Entry(key, Put, FormatInt(1))] && s1.authors == [] + [By(0, 0, 1)];
    es, s := Then(key, es, s1, GiveUp(0));
  }

  /** Every put error is retried, so a call whose first answer is lost counts twice and still answers 200. */
  lemma LostAnswerCountsTwice(key: string) returns (es: seq<Event>, s: State)
    ensures Run(key, Init, es) == Some(s)
    ensures |s.callers| == 1 && s.callers[0].delta == 1 && s.callers[0].pc == Returned(Applied(2, 2))
    ensures Count(s.authors, 0) == 2
  {
    es, s := FirstAnswerLost(key);
    ParseFormatInt(1);
    assert Observed(s.log, key) == (1, 1);
    var s1 := UndisturbedWrite(key, s, 0);
    ThenRun(key, es, s, WriteRun(s, 0), s1);
    es := es + WriteRun(s, 0);
    assert s1.callers == [Caller(1, 1, Waiting(2, 1))];
    assert s1.authors == [By(0, 0, 1)] + [By(0, 1, 1)];
    CountAppend([], By(0, 0, 1), 0);
    CountAppend([By(0, 0, 1)], By(0, 1, 1), 0);
    es, s := Then(key, es, s1, Reply(0));
  }
}
