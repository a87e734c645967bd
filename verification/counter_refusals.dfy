/**
 What a refusal means. A run is watched: which prefix of the log each attempt read, and how long the log
 was when its write arrived. A refused attempt was overtaken: an entry for the key lies between the two.
 */
module CounterRefusals {
  import opened Wrappers
  import opened StreamLog
  import opened Decimal
  import opened CounterProtocol
  import opened CounterSafety
  import opened CounterRuns

  /** By (caller, attempt): the length of the log the read showed, and of the log the write met. */
  datatype History = History(shown: map<(nat, nat), nat>, met: map<(nat, nat), nat>)

  function Note(s: State, h: History, e: Event): History {
    match e
    case Read(c, upTo) => if c < |s.callers| then h.(shown := h.shown[(c, s.callers[c].attempt) := upTo]) else h
    case Deliver(c, a) => h.(met := h.met[(c, a) := |s.log|])
    case _ => h
  }

  /** The history of a run. */
  function Watch(key: string, s: State, h: History, es: seq<Event>): History
    decreases |es|
  {
    if es == [] || Apply(key, s, es[0]).None? then h
    else Watch(key, Apply(key, s, es[0]).value, Note(s, h, es[0]), es[1..])
  }

  const Unwatched := History(map[], map[])

  /** `rev` is what a read of the first n entries reports. */
  ghost predicate ReadAt(key: string, log: Log, shown: map<(nat, nat), nat>, id: (nat, nat), rev: nat) {
    id in shown && shown[id] <= |log| && rev == Observed(log[..shown[id]], key).1
  }

  /** An entry for the key came after the first n entries and among the first m. */
  ghost predicate Overtaken(key: string, log: Log, n: nat, m: nat) {
    m <= |log| && exists i :: n <= i < m && log[i].key == key
  }

  ghost predicate Refused(s: State, id: (nat, nat)) {
    id in s.results && s.results[id].None?
  }

  ghost predicate CallerRead(key: string, s: State, h: History, c: nat)
    requires c < |s.callers|
  {
    var w := s.callers[c];
    w.pc.Sending? || w.pc.Waiting? ==> ReadAt(key, s.log, h.shown, (c, w.attempt), w.pc.rev)
  }

  ghost predicate RefusedOk(key: string, s: State, h: History, id: (nat, nat)) {
    Refused(s, id) ==> id in h.shown && id in h.met && Overtaken(key, s.log, h.shown[id], h.met[id])
  }

  ghost predicate Faithful(key: string, s: State, h: History) {
    && (forall c: nat {:trigger CallerRead(key, s, h, c)} :: c < |s.callers| ==> CallerRead(key, s, h, c))
    && (forall id {:trigger ReadAt(key, s.log, h.shown, id, s.wire[id].expected)} :: id in s.wire ==>
          ReadAt(key, s.log, h.shown, id, s.wire[id].expected))
    && (forall id {:trigger RefusedOk(key, s, h, id)} :: RefusedOk(key, s, h, id))
  }

  // ----- the log only grows

  lemma ReadAtGrows(key: string, log: Log, log': Log, shown: map<(nat, nat), nat>, id: (nat, nat), rev: nat)
    requires log <= log' && ReadAt(key, log, shown, id, rev)
    ensures ReadAt(key, log', shown, id, rev)
  {
    assert log'[..shown[id]] == log[..shown[id]];
  }

  /** The server refuses only what has been overtaken. */
  lemma RefusalIsOvertaking(key: string, s: State, h: History, id: (nat, nat), delta: int)
    requires id in s.wire && ReadAt(key, s.log, h.shown, id, s.wire[id].expected)
    requires Receive(key, s, id, delta).results[id].None?
    ensures Overtaken(key, s.log, h.shown[id], |s.log|)
  {
  }

  // ----- every step keeps the history faithful

  lemma DeliverFaithful(key: string, s: State, h: History, c: nat, a: nat)
    requires Inv(key, s) && Faithful(key, s, h) && Apply(key, s, Deliver(c, a)).Some?
    ensures Faithful(key, Apply(key, s, Deliver(c, a)).value, Note(s, h, Deliver(c, a)))
  {
    var id := (c, a);
    var s', h' := Apply(key, s, Deliver(c, a)).value, Note(s, h, Deliver(c, a));
    assert WireOk(key, s, id) && ReadAt(key, s.log, h.shown, id, s.wire[id].expected);
    LogGrows(key, s, Deliver(c, a));
    forall d: nat | d < |s'.callers| ensures CallerRead(key, s', h', d) {
      CallerKeeps(key, s, h, s'.log, d);
    }
    forall id' | id' in s'.wire ensures ReadAt(key, s'.log, h'.shown, id', s'.wire[id'].expected) {
      ReadAtGrows(key, s.log, s'.log, h.shown, id', s.wire[id'].expected);
    }
    forall id' ensures RefusedOk(key, s', h', id') {
      assert RefusedOk(key, s, h, id');
      if id' == id && Refused(s', id) {
        RefusalIsOvertaking(key, s, h, id, s.callers[c].delta);
      }
    }
  }

  lemma LogGrows(key: string, s: State, e: Event)
    requires Apply(key, s, e).Some?
    ensures s.log <= Apply(key, s, e).value.log
  {
  }

  lemma CallerKeeps(key: string, s: State, h: History, log': Log, d: nat)
    requires Faithful(key, s, h) && s.log <= log' && d < |s.callers|
    ensures CallerRead(key, s.(log := log'), h, d)
  {
    assert CallerRead(key, s, h, d);
    var w := s.callers[d];
    if w.pc.Sending? || w.pc.Waiting? {
      ReadAtGrows(key, s.log, log', h.shown, (d, w.attempt), w.pc.rev);
    }
  }

  lemma AppendFaithful(key: string, s: State, h: History, s': State)
    requires Faithful(key, s, h) && s.log <= s'.log
    requires s'.callers == s.callers && s'.wire == s.wire && s'.results == s.results
    ensures Faithful(key, s', h)
  {
    forall d: nat | d < |s'.callers| ensures CallerRead(key, s', h, d) {
      CallerKeeps(key, s, h, s'.log, d);
    }
    forall id | id in s'.wire ensures ReadAt(key, s'.log, h.shown, id, s'.wire[id].expected) {
      ReadAtGrows(key, s.log, s'.log, h.shown, id, s.wire[id].expected);
    }
    forall id ensures RefusedOk(key, s', h, id) {
      assert RefusedOk(key, s, h, id);
    }
  }

  lemma ReadFaithful(key: string, s: State, h: History, c: nat, upTo: nat)
    requires Inv(key, s) && Faithful(key, s, h) && Apply(key, s, Read(c, upTo)).Some?
    ensures Faithful(key, Apply(key, s, Read(c, upTo)).value, Note(s, h, Read(c, upTo)))
  {
    var s', h' := Apply(key, s, Read(c, upTo)).value, Note(s, h, Read(c, upTo));
    NothingUnderWay(key, s, c);
    forall d: nat | d < |s'.callers| ensures CallerRead(key, s', h', d) {
      assert CallerRead(key, s, h, d);
    }
    forall id | id in s'.wire ensures ReadAt(key, s'.log, h'.shown, id, s'.wire[id].expected) {
      assert ReadAt(key, s.log, h.shown, id, s.wire[id].expected);
    }
    forall id ensures RefusedOk(key, s', h', id) {
      assert RefusedOk(key, s, h, id);
    }
  }

  lemma SendFaithful(key: string, s: State, h: History, c: nat)
    requires Faithful(key, s, h) && Apply(key, s, Send(c)).Some?
    ensures Faithful(key, Apply(key, s, Send(c)).value, h)
  {
    var s' := Apply(key, s, Send(c)).value;
    assert CallerRead(key, s, h, c);
    forall d: nat | d < |s'.callers| ensures CallerRead(key, s', h, d) {
      assert CallerRead(key, s, h, d);
    }
    forall id | id in s'.wire ensures ReadAt(key, s'.log, h.shown, id, s'.wire[id].expected) {
      assert id in s.wire ==> ReadAt(key, s.log, h.shown, id, s.wire[id].expected);
    }
    forall id ensures RefusedOk(key, s', h, id) {
      assert RefusedOk(key, s, h, id);
    }
  }

  /** Steps that read, send and write nothing. */
  lemma QuietFaithful(key: string, s: State, h: History, e: Event)
    requires Faithful(key, s, h) && Apply(key, s, e).Some?
    requires e.Start? || e.ReadError? || e.Reply? || e.GiveUp? || e.Lose?
    ensures Faithful(key, Apply(key, s, e).value, h)
  {
    var s' := Apply(key, s, e).value;
    forall d: nat | d < |s'.callers| ensures CallerRead(key, s', h, d) {
      assert d < |s.callers| ==> CallerRead(key, s, h, d);
    }
    forall id | id in s'.wire ensures ReadAt(key, s'.log, h.shown, id, s'.wire[id].expected) {
      assert ReadAt(key, s.log, h.shown, id, s.wire[id].expected);
    }
    forall id ensures RefusedOk(key, s', h, id) {
      assert RefusedOk(key, s, h, id);
    }
  }

  lemma StepFaithful(key: string, s: State, h: History, e: Event)
    requires Inv(key, s) && Faithful(key, s, h) && Apply(key, s, e).Some?
    ensures Faithful(key, Apply(key, s, e).value, Note(s, h, e))
  {
    if e.Deliver? {
      DeliverFaithful(key, s, h, e.c, e.attempt);
    } else if e.Read? {
      ReadFaithful(key, s, h, e.c, e.upTo);
    } else if e.Send? {
      SendFaithful(key, s, h, e.c);
    } else if e.OtherKey? || e.Delete? || e.Overwrite? {
      AppendFaithful(key, s, h, Apply(key, s, e).value);
    } else {
      QuietFaithful(key, s, h, e);
    }
  }

  lemma {:induction false} RunFaithful(key: string, s: State, h: History, es: seq<Event>)
    requires Inv(key, s) && Faithful(key, s, h) && Run(key, s, es).Some?
    ensures Faithful(key, Run(key, s, es).value, Watch(key, s, h, es))
    decreases |es|
  {
    if es != [] {
      StepFaithful(key, s, h, es[0]);
      StepKeepsInv(key, s, es[0]);
      RunFaithful(key, Apply(key, s, es[0]).value, Note(s, h, es[0]), es[1..]);
    }
  }

  // ----- what it means to a caller

  /** In every run, a refused attempt had read a replica that lacked an entry for the key, or such an entry
      arrived between its read and its write: it lies beyond what the read showed and before the point the
      write met. */
  lemma RefusedWasOvertaken(key: string, es: seq<Event>, s: State, c: nat, a: nat)
    requires Run(key, Init, es) == Some(s) && Refused(s, (c, a))
    ensures var h := Watch(key, Init, Unwatched, es);
            && (c, a) in h.shown && (c, a) in h.met
            && Overtaken(key, s.log, h.shown[(c, a)], h.met[(c, a)])
  {
    InitInv(key);
    RunFaithful(key, Init, Unwatched, es);
    assert RefusedOk(key, s, Watch(key, Init, Unwatched, es), (c, a));
  }

  /** A call that ends in contention without having lost an answer was overtaken in each of its five attempts. */
  lemma ContentionMeansFiveOvertakings(key: string, es: seq<Event>, s: State, c: nat, a: nat)
    requires Run(key, Init, es) == Some(s) && NeverGaveUp(es, c) && c < |s.callers|
    requires s.callers[c].pc == Returned(Contention) && a < ATTEMPTS
    ensures Refused(s, (c, a))
    ensures var h := Watch(key, Init, Unwatched, es);
            && (c, a) in h.shown && (c, a) in h.met
            && Overtaken(key, s.log, h.shown[(c, a)], h.met[(c, a)])
  {
    InitInv(key);
    RunRejected(key, Init, es, c);
    ContentionStays(key, Init, es);
    RefusedWasOvertaken(key, es, s, c, a);
  }

  /** Contention is answered after the last attempt only. */
  ghost predicate ContentionAtEnd(s: State) {
    forall c :: 0 <= c < |s.callers| && s.callers[c].pc == Returned(Contention) ==> s.callers[c].attempt >= ATTEMPTS
  }

  lemma {:induction false} ContentionStays(key: string, s: State, es: seq<Event>)
    requires ContentionAtEnd(s) && Run(key, s, es).Some?
    ensures ContentionAtEnd(Run(key, s, es).value)
    decreases |es|
  {
    if es != [] {
      ContentionStays(key, Apply(key, s, es[0]).value, es[1..]);
    }
  }

  // ----- a lagging replica is enough

  /** An attempt that reads a replica without any entry, while the key has a value: refused, nothing written. */
  lemma StaleAttempt(key: string, s: State, c: nat) returns (es: seq<Event>, s': State)
    requires c < |s.callers| && s.callers[c].pc.Reading? && Get(s.log, key).Found?
    ensures Run(key, s, es) == Some(s') && s'.log == s.log && NeverGaveUp(es, c)
    ensures var w := s.callers[c];
            s'.callers == s.callers[c := Caller(w.delta, w.attempt + 1, if w.attempt + 1 < 5 then Reading else Returned(Contention))]
  {
    var a := s.callers[c].attempt;
    assert s.log[..0] == [];
    var s1 := Apply(key, s, Read(c, 0)).value;
    var s2 := Apply(key, s1, Send(c)).value;
    var s3 := Apply(key, s2, Deliver(c, a)).value;
    s' := Apply(key, s3, Reply(c)).value;
    RunThen(key, s, [Read(c, 0)], [Send(c)]);
    RunThen(key, s, [Read(c, 0)] + [Send(c)], [Deliver(c, a)]);
    RunThen(key, s, [Read(c, 0)] + [Send(c)] + [Deliver(c, a)], [Reply(c)]);
    es := [Read(c, 0)] + [Send(c)] + [Deliver(c, a)] + [Reply(c)];
  }

  lemma {:induction false} StaleAttempts(key: string, s: State, c: nat) returns (es: seq<Event>, s': State)
    requires c < |s.callers| && s.callers[c].pc.Reading? && s.callers[c].attempt < 5 && Get(s.log, key).Found?
    ensures Run(key, s, es) == Some(s') && s'.log == s.log && NeverGaveUp(es, c)
    ensures s'.callers == s.callers[c := Caller(s.callers[c].delta, 5, Returned(Contention))]
    decreases 5 - s.callers[c].attempt
  {
    es, s' := StaleAttempt(key, s, c);
    if s'.callers[c].attempt < 5 {
      var s1 := s';
      var rest;
      rest, s' := StaleAttempts(key, s1, c);
      RunThen(key, s, es, rest);
      es := es + rest;
    }
  }

  /** In any state in which the key has a value, a new call can end in contention although nobody writes while it
      runs and no answer of it is lost: a lagging replica is enough. */
  lemma ContentionWithoutWriters(key: string, s: State, delta: int) returns (es: seq<Event>, s': State)
    requires IsInt64(delta) && Get(s.log, key).Found?
    ensures Run(key, s, es) == Some(s') && s'.log == s.log && NeverGaveUp(es, |s.callers|)
    ensures s'.callers == s.callers + [Caller(delta, 5, Returned(Contention))]
  {
    var s1 := Apply(key, s, Start(delta)).value;
    var rest;
    rest, s' := StaleAttempts(key, s1, |s.callers|);
    es := [Start(delta)] + rest;
    RunThen(key, s, [Start(delta)], rest);
  }
}
