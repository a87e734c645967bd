/** `kvIncr` as the program runs it, with every other caller and the server free to act between its steps. */
module Counter {
  import opened Wrappers
  import opened StreamLog
  import opened Decimal
  import opened CounterProtocol
  import opened CounterSafety
  import opened CounterRuns
  import opened CounterRefusals

  predicate OwnedBy(e: Event, c: nat) {
    (e.Read? || e.ReadError? || e.Send? || e.Reply? || e.GiveUp?) && e.c == c
  }

  /** What caller c may rely on while others run: the log grows, its own state stays, and so do the server's
      verdicts on its writes. */
  ghost predicate Undisturbed(s: State, s': State, c: nat) {
    && s.log <= s'.log && (c < |s.callers| ==> c < |s'.callers| && s'.callers[c] == s.callers[c])
    && VerdictsStay(s, s')
  }

  ghost predicate VerdictsStay(s: State, s': State) {
    forall id {:trigger id in s'.results} :: id in s.results ==> id in s'.results && s'.results[id] == s.results[id]
  }

  lemma StepKeepsVerdicts(key: string, s: State, e: Event)
    requires Inv(key, s) && Apply(key, s, e).Some?
    ensures VerdictsStay(s, Apply(key, s, e).value)
  {
    if e.Deliver? {
      assert WireOk(key, s, (e.c, e.attempt));
    }
  }

  lemma StepUndisturbing(key: string, s: State, e: Event, c: nat)
    requires Inv(key, s) && Apply(key, s, e).Some? && !OwnedBy(e, c)
    ensures Undisturbed(s, Apply(key, s, e).value, c)
  {
    StepKeepsVerdicts(key, s, e);
    LogGrows(key, s, e);
  }

  lemma Transitive(s: State, s1: State, s2: State, c: nat)
    requires Undisturbed(s, s1, c) && Undisturbed(s1, s2, c)
    ensures Undisturbed(s, s2, c)
  {
    forall id | id in s.results ensures id in s2.results && s2.results[id] == s.results[id] {
      assert id in s1.results;
    }
  }

  lemma {:induction false} OthersUndisturbing(key: string, s: State, es: seq<Event>, c: nat)
    requires Inv(key, s) && Run(key, s, es).Some? && forall e :: e in es ==> !OwnedBy(e, c)
    ensures Undisturbed(s, Run(key, s, es).value, c)
    decreases |es|
  {
    if es != [] {
      assert es[0] in es;
      var s1 := Apply(key, s, es[0]).value;
      StepKeepsInv(key, s, es[0]);
      StepUndisturbing(key, s, es[0], c);
      OthersUndisturbing(key, s1, es[1..], c);
      Transitive(s, s1, Run(key, s, es).value, c);
    }
  }

  /** The write of attempt `id`, based on a read of the first n entries, is on its way or has been judged; and it
      has been refused only if an entry for the key came after those n. */
  ghost predicate UnderWay(key: string, s: State, id: (nat, nat), n: nat) {
    && n <= |s.log|
    && if id in s.wire then s.wire[id].expected == Observed(s.log[..n], key).1
       else id in s.results && (s.results[id].None? ==> Overtaken(key, s.log, n, |s.log|))
  }

  lemma DeliverUnderWay(key: string, s: State, id: (nat, nat), n: nat)
    requires Apply(key, s, Deliver(id.0, id.1)).Some? && UnderWay(key, s, id, n)
    ensures UnderWay(key, Apply(key, s, Deliver(id.0, id.1)).value, id, n)
  {
    var s' := Apply(key, s, Deliver(id.0, id.1)).value;
    var h := History(map[id := n], map[]);
    assert ReadAt(key, s.log, h.shown, id, s.wire[id].expected);
    if s'.results[id].None? {
      RefusalIsOvertaking(key, s, h, id, s.callers[id.0].delta);
    }
  }

  lemma StepUnderWay(key: string, s: State, e: Event, id: (nat, nat), n: nat)
    requires Apply(key, s, e).Some? && !OwnedBy(e, id.0) && e != Lose(id.0, id.1) && UnderWay(key, s, id, n)
    ensures UnderWay(key, Apply(key, s, e).value, id, n)
  {
    var s' := Apply(key, s, e).value;
    if e == Deliver(id.0, id.1) {
      DeliverUnderWay(key, s, id, n);
    } else {
      LogGrows(key, s, e);
      assert s'.log[..n] == s.log[..n];
      assert id in s'.wire <==> id in s.wire;
    }
  }

  lemma {:induction false} OthersUnderWay(key: string, s: State, es: seq<Event>, id: (nat, nat), n: nat)
    requires Run(key, s, es).Some? && UnderWay(key, s, id, n)
    requires forall e :: e in es ==> !OwnedBy(e, id.0) && e != Lose(id.0, id.1)
    ensures UnderWay(key, Run(key, s, es).value, id, n)
    decreases |es|
  {
    if es != [] {
      assert es[0] in es;
      StepUnderWay(key, s, es[0], id, n);
      OthersUnderWay(key, Apply(key, s, es[0]).value, es[1..], id, n);
    }
  }

  lemma RunReachable(key: string, s: State, es: seq<Event>)
    requires Reachable(key, s) && Run(key, s, es).Some?
    ensures Reachable(key, Run(key, s, es).value)
  {
    var before :| Run(key, Init, before) == Some(s);
    ThenRun(key, before, s, es, Run(key, s, es).value);
  }

  class CounterKey {
    const key: string
    var st: State

    ghost predicate Valid()
      reads this
    {
      Reachable(key, st)
    }

    constructor (key: string)
      ensures Valid() && this.key == key && st == Init
    {
      this.key := key;
      st := Init;
      new;
      assert Run(key, Init, []) == Some(st);
    }

    method Step(e: Event)
      requires Valid() && Apply(key, st, e).Some?
      modifies this
      ensures Valid() && st == Apply(key, old(st), e).value && old(st).log <= st.log && VerdictsStay(old(st), st)
    {
      ReachableInv(key, st);
      StepKeepsVerdicts(key, st, e);
      RunReachable(key, st, [e]);
      st := Apply(key, st, e).value;
    }

    /** Every caller but `c`, and the server, run for a while. */
    method Others(c: nat)
      requires Valid()
      modifies this
      ensures Valid() && Undisturbed(old(st), st, c)
    {
      var es: seq<Event> := *;
      if (forall e :: e in es ==> !OwnedBy(e, c)) && Run(key, st, es).Some? {
        ReachableInv(key, st);
        OthersUndisturbing(key, st, es, c);
        RunReachable(key, st, es);
        st := Run(key, st, es).value;
      }
    }

    /** Everybody else runs for a while, and the caller's write does not get lost. */
    method OthersCarrying(c: nat, ghost n: nat)
      requires Valid() && c < |st.callers| && UnderWay(key, st, (c, st.callers[c].attempt), n)
      modifies this
      ensures Valid() && Undisturbed(old(st), st, c) && UnderWay(key, st, (c, st.callers[c].attempt), n)
    {
      var id := (c, st.callers[c].attempt);
      var es: seq<Event> := *;
      if (forall e :: e in es ==> !OwnedBy(e, c) && e != Lose(c, id.1)) && Run(key, st, es).Some? {
        ReachableInv(key, st);
        OthersUndisturbing(key, st, es, c);
        OthersUnderWay(key, st, es, id, n);
        RunReachable(key, st, es);
        st := Run(key, st, es).value;
      }
    }

    /** So they do until the server has judged the write, which was based on a read of the first n entries. */
    method OthersUntilAnswered(c: nat, ghost n: nat)
      requires Valid() && c < |st.callers| && UnderWay(key, st, (c, st.callers[c].attempt), n)
      modifies this
      ensures Valid() && Undisturbed(old(st), st, c)
      ensures var id := (c, st.callers[c].attempt);
              UnderWay(key, st, id, n) && id !in st.wire
    {
      OthersCarrying(c, n);
      var id := (c, st.callers[c].attempt);
      if id in st.wire {
        StepUnderWay(key, st, Deliver(c, id.1), id, n);
        Step(Deliver(c, id.1));
      }
    }

    /** `kv.Get`, answered by a replica that has applied n entries: at most `upTo`, and all there are when the read
        began if `upTo` goes beyond them. */
    method ReadBase(c: nat, upTo: nat) returns (ghost n: nat)
      requires Valid() && c < |st.callers| && st.callers[c].pc.Reading? && st.callers[c].attempt < ATTEMPTS
      modifies this
      ensures Valid() && old(st).log <= st.log && c < |st.callers| && VerdictsStay(old(st), st)
      ensures n <= upTo && n <= |st.log| && (n == upTo || |old(st).log| <= n)
      ensures Based(key, st, c, n) && st.callers[c] == old(st.callers[c]).(pc := st.callers[c].pc)
    {
      Others(c);
      n := if upTo <= |st.log| then upTo else |st.log|;
      Step(Read(c, if upTo <= |st.log| then upTo else |st.log|));
    }

    /** `kv.Create` or `kv.Update`, based on that read. The verdict is the revision, or a refusal, which means that
        the read was overtaken; when the write or its answer is lost, the wait ends without a verdict. */
    method PutBased(c: nat, lost: bool, ghost n: nat) returns (done: bool)
      requires Valid() && c < |st.callers| && Based(key, st, c, n)
      modifies this
      ensures Valid() && old(st).log <= st.log && c < |st.callers| && VerdictsStay(old(st), st)
      ensures lost ==> !done
      ensures !lost ==> Verdict(key, old(st.callers[c]), st, c, n) && done == st.results[(c, old(st.callers[c].attempt))].Some?
      ensures !done ==> st.callers[c] == NextAttempt(old(st.callers[c]))
    {
      Others(c);
      assert Observed(st.log[..n], key) == Observed(old(st).log[..n], key) by {
        assert st.log[..n] == old(st).log[..n];
      }
      Step(Send(c));
      if lost {
        Others(c);
        Step(GiveUp(c));
        return false;
      }
      OthersUntilAnswered(c, n);
      done := st.results[(c, st.callers[c].attempt)].Some?;
      Step(Reply(c));
    }

    /** One attempt; true when the call has its answer. `readFails` and `lost` are the network's. */
    method Attempt(c: nat, upTo: nat, readFails: bool, lost: bool) returns (done: bool, ghost n: nat)
      requires Valid() && c < |st.callers| && st.callers[c].pc.Reading? && st.callers[c].attempt < ATTEMPTS
      modifies this
      ensures Valid() && old(st).log <= st.log && c < |st.callers| && VerdictsStay(old(st), st)
      ensures readFails ==> done && st.callers[c] == old(st.callers[c]).(pc := Returned(ReadFailed))
      ensures !readFails ==> n <= upTo && n <= |st.log| && (n == upTo || |old(st).log| <= n)
      ensures !readFails && lost ==> !done
      ensures !readFails && !lost ==>
                var w := old(st.callers[c]);
                && (c, w.attempt) in st.results
                && match st.results[(c, w.attempt)]
                   case Some(rev) =>
                     done && st.callers[c] == w.(pc := Returned(Applied(Wrap64(Observed(st.log[..n], key).0 + w.delta), rev)))
                   case None => !done && Overtaken(key, st.log, n, |st.log|)
      ensures !done ==> st.callers[c] == NextAttempt(old(st.callers[c]))
    {
      n := 0;
      if readFails {
        Others(c);
        Step(ReadError(c));
        return true, n;
      }
      n := ReadBase(c, upTo);
      ghost var log := st.log;
      done := PutBased(c, lost, n);
      assert st.log[..n] == log[..n];
    }

    /** One round of the loop: attempt `attempt`, after all before it were passed over. */
    method Continue(c: nat, attempt: nat, upTo: nat -> nat, readFails: nat -> bool, lost: nat -> bool) returns (done: bool)
      requires Valid() && c < |st.callers| && st.callers[c].pc.Reading? && st.callers[c].attempt == attempt < ATTEMPTS
      requires AllPassedOver(st, c, attempt, readFails, lost)
      modifies this
      ensures Valid() && old(st).log <= st.log && c < |st.callers|
      ensures done ==> Ended(st, c, readFails, lost) && st.callers[c].delta == old(st.callers[c].delta)
      ensures !done ==> AllPassedOver(st, c, attempt + 1, readFails, lost) && st.callers[c] == NextAttempt(old(st.callers[c]))
    {
      ghost var before := st;
      ghost var n;
      done, n := Attempt(c, upTo(attempt), readFails(attempt), lost(attempt));
      StillPassedOver(before, st, c, attempt, readFails, lost);
      assert !done ==> PassedOver(st, c, attempt, readFails, lost);
    }

    /** `kvIncr`: at most five attempts, the i-th reading a replica with at most `upTo(i)` entries. Every attempt
        before the last was refused or its answer lost; the last one failed to read, or was accepted. A 200
        carries the counter's value at its revision, which is the value before that revision plus this call's
        delta; and when no answer is lost, the call has added its delta once if it answers 200 and not at all
        otherwise. */
    method Incr(delta: int, upTo: nat -> nat, readFails: nat -> bool, lost: nat -> bool) returns (ghost c: nat, resp: Response)
      requires Valid() && IsInt64(delta)
      modifies this
      ensures Valid() && old(st).log <= st.log
      ensures c < |st.callers| && st.callers[c].delta == delta && st.callers[c].pc == Returned(resp)
      ensures Count(st.authors, c) <= 5
      ensures resp.Applied? ==> Holds(key, st.log, delta, resp)
      ensures Ended(st, c, readFails, lost)
      ensures NoneLost(lost) ==> Count(st.authors, c) == if resp.Applied? then 1 else 0
    {
      var self := |st.callers|;
      c := self;
      Step(Start(delta));
      var attempt := 0;
      while attempt < ATTEMPTS
        invariant 0 <= attempt <= ATTEMPTS
        invariant Valid() && old(st).log <= st.log && self < |st.callers|
        invariant st.callers[self] == Caller(delta, attempt, if attempt < ATTEMPTS then Reading else Returned(Contention))
        invariant AllPassedOver(st, self, attempt, readFails, lost)
      {
        var done := Continue(self, attempt, upTo, readFails, lost);
        if done {
          resp := st.callers[self].pc.resp;
          Finished(key, st, self, readFails, lost);
          return;
        }
        attempt := attempt + 1;
      }
      Finished(key, st, self, readFails, lost);
      resp := Contention;
    }
  }

  /** The caller is about to write what it makes of the first n entries. */
  ghost predicate Based(key: string, s: State, c: nat, n: nat)
    requires c < |s.callers|
  {
    var w := s.callers[c];
    && n <= |s.log| && w.attempt < ATTEMPTS
    && w.pc == Sending(Wrap64(Observed(s.log[..n], key).0 + w.delta), Observed(s.log[..n], key).1)
  }

  /** The verdict on the write that caller `w` was about to make, and what the caller made of it. */
  ghost predicate Verdict(key: string, w: Caller, s: State, c: nat, n: nat)
    requires c < |s.callers|
  {
    && w.pc.Sending? && (c, w.attempt) in s.results
    && match s.results[(c, w.attempt)]
       case Some(rev) => s.callers[c] == w.(pc := Returned(Applied(w.pc.next, rev)))
       case None => Overtaken(key, s.log, n, |s.log|)
  }

  /** The next attempt, or the conflict answer after the fifth. */
  function NextAttempt(w: Caller): Caller {
    w.(attempt := w.attempt + 1, pc := if w.attempt + 1 < 5 then Reading else Returned(Contention))
  }

  /** Attempt i of the call did not end it: its read came back, and its write was refused or its answer lost. */
  ghost predicate PassedOver(s: State, c: nat, i: nat, readFails: nat -> bool, lost: nat -> bool) {
    !readFails(i) && (lost(i) || Refused(s, (c, i)))
  }

  ghost predicate NoneLost(lost: nat -> bool) {
    forall i: nat :: i < 5 ==> !lost(i)
  }

  ghost predicate AllPassedOver(s: State, c: nat, n: nat, readFails: nat -> bool, lost: nat -> bool) {
    forall i: nat {:trigger PassedOver(s, c, i, readFails, lost)} :: i < n ==> PassedOver(s, c, i, readFails, lost)
  }

  /** The answer is the counter's value at its revision, and the value before that revision plus delta. */
  ghost predicate Holds(key: string, log: Log, delta: int, resp: Response)
    requires resp.Applied?
  {
    && 1 <= resp.rev <= |log|
    && Get(log[..resp.rev], key) == Found(resp.rev, FormatInt(resp.value))
    && resp.value == Wrap64(Observed(log[..resp.rev - 1], key).0 + delta)
  }

  /** How the call ended: on its fifth refusal or lost answer, or on the first attempt that failed to read or was
      accepted. */
  ghost predicate Ended(s: State, c: nat, readFails: nat -> bool, lost: nat -> bool)
    requires c < |s.callers|
  {
    var w := s.callers[c];
    && w.pc.Returned? && AllPassedOver(s, c, w.attempt, readFails, lost)
    && match w.pc.resp
       case Contention => w.attempt == 5
       case ReadFailed => w.attempt < 5 && readFails(w.attempt)
       case Applied(_, rev) =>
         && w.attempt < 5 && !readFails(w.attempt) && !lost(w.attempt)
         && (c, w.attempt) in s.results && s.results[(c, w.attempt)] == Some(rev)
  }

  lemma StillPassedOver(s: State, s': State, c: nat, n: nat, readFails: nat -> bool, lost: nat -> bool)
    requires AllPassedOver(s, c, n, readFails, lost) && VerdictsStay(s, s')
    ensures AllPassedOver(s', c, n, readFails, lost)
  {
    forall i: nat | i < n ensures PassedOver(s', c, i, readFails, lost) {
      assert PassedOver(s, c, i, readFails, lost);
      assert Refused(s, (c, i)) ==> (c, i) in s'.results;
    }
  }

  lemma Finished(key: string, s: State, c: nat, readFails: nat -> bool, lost: nat -> bool)
    requires Reachable(key, s) && c < |s.callers| && Ended(s, c, readFails, lost)
    ensures Count(s.authors, c) <= 5
    ensures NoneLost(lost) ==> Count(s.authors, c) == if s.callers[c].pc.resp.Applied? then 1 else 0
    ensures s.callers[c].pc.resp.Applied? ==> Holds(key, s.log, s.callers[c].delta, s.callers[c].pc.resp)
  {
    AtMostFiveTimes(key, s, c);
    ExactlyOnce(key, s, c);
    if s.callers[c].pc.resp.Applied? {
      IncrementAnswer(key, s, c);
    }
    if NoneLost(lost) {
      forall a: nat | a < s.callers[c].attempt && (c, a) in s.results ensures s.results[(c, a)].None? {
        assert PassedOver(s, c, a, readFails, lost);
      }
    }
  }
}
