/** No increment is lost and none is doubled: what holds in every run of the counter. */
module CounterSafety {
  import opened Wrappers
  import opened StreamLog
  import opened Decimal
  import opened CounterProtocol

  // ----- the invariant

  /** Every counter entry holds the wrapped sum of the increments up to and including it. */
  ghost predicate EntryOk(key: string, log: Log, authors: seq<Author>, i: nat)
    requires |log| == |authors|
  {
    i < |log| ==>
      && (authors[i].By? ==> log[i].key == key && log[i].op.Put?)
      && (authors[i].By? ==> log[i].data == FormatInt(Wrap64(Sum(key, log, authors, i + 1))))
  }

  /** `rev` is 0, or the revision of a counter entry: what an attempt bases its write on. */
  ghost predicate BaseOk(key: string, log: Log, rev: nat) {
    rev <= |log| && (rev > 0 ==> log[rev - 1].key == key && log[rev - 1].op.Put?)
  }

  /** The value an attempt based on `rev` wants to write. */
  ghost predicate IntentOk(key: string, log: Log, authors: seq<Author>, rev: nat, next: int, delta: int)
    requires |log| == |authors|
  {
    && BaseOk(key, log, rev)
    && next == Wrap64((if rev == 0 then 0 else Sum(key, log, authors, rev)) + delta)
  }

  /** Entry `rev` was appended by this attempt and holds `next`. */
  ghost predicate AppliedOk(key: string, log: Log, authors: seq<Author>, id: (nat, nat), delta: int, rev: nat)
    requires |log| == |authors|
  {
    && 1 <= rev <= |log|
    && log[rev - 1].key == key && log[rev - 1].op.Put?
    && authors[rev - 1] == By(id.0, id.1, delta)
  }

  ghost predicate CallerOk(key: string, s: State, c: nat)
    requires c < |s.callers| && |s.log| == |s.authors|
  {
    var w := s.callers[c];
    && w.attempt <= ATTEMPTS
    && (!w.pc.Returned? ==> w.attempt < ATTEMPTS)
    && (w.pc.Sending? ==> IntentOk(key, s.log, s.authors, w.pc.rev, w.pc.next, w.delta))
    && (w.pc.Waiting? ==> IntentOk(key, s.log, s.authors, w.pc.rev, w.pc.next, w.delta))
    && (w.pc.Waiting? && (c, w.attempt) in s.wire ==> s.wire[(c, w.attempt)] == Request(w.pc.rev, w.pc.next))
    && (w.pc.Waiting? && (c, w.attempt) in s.results && s.results[(c, w.attempt)].Some?
        ==> w.pc.next == Wrap64(Sum'(key, s, s.results[(c, w.attempt)].value)))
    && (w.pc.Returned? && w.pc.resp.Applied? ==>
          && (c, w.attempt) in s.results && s.results[(c, w.attempt)] == Some(w.pc.resp.rev)
          && w.pc.resp.value == Wrap64(Sum'(key, s, w.pc.resp.rev)))
  }

  ghost function Sum'(key: string, s: State, n: nat): int {
    if n <= |s.log| == |s.authors| then Sum(key, s.log, s.authors, n) else 0
  }

  predicate Decided(pc: Pc) {
    pc.Waiting? || (pc.Returned? && pc.resp.Applied?)
  }

  /** An attempt is on the wire or decided at most once, and only after it was sent. */
  ghost predicate Sent(s: State, id: (nat, nat)) {
    && id.0 < |s.callers|
    && (id.1 < s.callers[id.0].attempt
        || (id.1 == s.callers[id.0].attempt && Decided(s.callers[id.0].pc)))
    && id.1 < ATTEMPTS
  }

  ghost predicate WireOk(key: string, s: State, id: (nat, nat))
    requires id in s.wire && |s.log| == |s.authors|
  {
    && Sent(s, id) && id !in s.results
    && IntentOk(key, s.log, s.authors, s.wire[id].expected, s.wire[id].next, s.callers[id.0].delta)
  }

  ghost predicate ResultOk(key: string, s: State, id: (nat, nat))
    requires id in s.results && |s.log| == |s.authors|
  {
    && Sent(s, id)
    && (s.results[id].Some? ==> AppliedOk(key, s.log, s.authors, id, s.callers[id.0].delta, s.results[id].value))
  }

  /** The attempts of caller c, among its first n, that the server applied. */
  ghost function Hits(results: map<(nat, nat), Option<nat>>, c: nat, n: nat): nat {
    if n == 0 then 0
    else Hits(results, c, n - 1) + if (c, n - 1) in results && results[(c, n - 1)].Some? then 1 else 0
  }

  ghost predicate Inv(key: string, s: State) {
    && |s.log| == |s.authors|
    && (forall i: nat {:trigger EntryOk(key, s.log, s.authors, i)} :: EntryOk(key, s.log, s.authors, i))
    && (forall c: nat {:trigger CallerOk(key, s, c)} :: c < |s.callers| ==> CallerOk(key, s, c))
    && (forall id {:trigger WireOk(key, s, id)} :: id in s.wire ==> WireOk(key, s, id))
    && (forall id {:trigger ResultOk(key, s, id)} :: id in s.results ==> ResultOk(key, s, id))
    && (forall c: nat {:trigger Count(s.authors, c)} :: Count(s.authors, c) == Hits(s.results, c, ATTEMPTS))
  }

  // ----- appending an entry

  lemma {:induction false} SumPrefix(key: string, log: Log, authors: seq<Author>, e: Entry, a: Author, n: nat)
    requires n <= |log| == |authors|
    ensures Sum(key, log + [e], authors + [a], n) == Sum(key, log, authors, n)
  {
    if n > 0 {
      SumPrefix(key, log, authors, e, a, n - 1);
    }
  }

  /** Nothing is added while no counter entry arrives. */
  lemma {:induction false} SumStays(key: string, log: Log, authors: seq<Author>, m: nat, n: nat)
    requires m <= n <= |log| == |authors|
    requires forall i :: m <= i < n ==> log[i].key != key
    ensures Sum(key, log, authors, n) == Sum(key, log, authors, m)
    decreases n
  {
    if m < n {
      SumStays(key, log, authors, m, n - 1);
    }
  }

  lemma SumWhenNotFound(key: string, log: Log, authors: seq<Author>)
    requires |log| == |authors| && Get(log, key).NotFound?
    ensures Sum(key, log, authors, |log|) == 0
  {
    var r := LastRev(log, key);
    SumStays(key, log, authors, r, |log|);
  }

  /** What the parts of the invariant say about old entries survives an append. */
  lemma AppendKeeps(key: string, s: State, s': State, e: Entry, a: Author)
    requires Inv(key, s)
    requires s'.log == s.log + [e] && s'.authors == s.authors + [a]
    requires s'.callers == s.callers
    requires s'.wire.Items <= s.wire.Items && s.results.Items <= s'.results.Items
    ensures forall i: nat {:trigger EntryOk(key, s'.log, s'.authors, i)} :: i < |s.log| ==> EntryOk(key, s'.log, s'.authors, i)
    ensures forall n: nat {:trigger Sum(key, s'.log, s'.authors, n)} :: n <= |s.log| ==>
              Sum(key, s'.log, s'.authors, n) == Sum(key, s.log, s.authors, n)
    ensures forall rev, next, d {:trigger IntentOk(key, s'.log, s'.authors, rev, next, d)} ::
              IntentOk(key, s.log, s.authors, rev, next, d) ==> IntentOk(key, s'.log, s'.authors, rev, next, d)
    ensures forall id, d, rev {:trigger AppliedOk(key, s'.log, s'.authors, id, d, rev)} ::
              AppliedOk(key, s.log, s.authors, id, d, rev) ==> AppliedOk(key, s'.log, s'.authors, id, d, rev)
  {
    forall n: nat | n <= |s.log| ensures Sum(key, s'.log, s'.authors, n) == Sum(key, s.log, s.authors, n) {
      SumPrefix(key, s.log, s.authors, e, a, n);
    }
    forall i: nat | i < |s.log| ensures EntryOk(key, s'.log, s'.authors, i) {
      assert EntryOk(key, s.log, s.authors, i);
    }
  }

  lemma CountAppend(authors: seq<Author>, a: Author, c: nat)
    ensures Count(authors + [a], c) == Count(authors, c) + if a.By? && a.caller == c then 1 else 0
  {
    assert (authors + [a])[..|authors|] == authors;
  }

  lemma {:induction false} HitsUpdate(results: map<(nat, nat), Option<nat>>, id: (nat, nat), r: Option<nat>, c: nat, n: nat)
    requires id !in results
    ensures Hits(results[id := r], c, n)
            == Hits(results, c, n) + if id.0 == c && id.1 < n && r.Some? then 1 else 0
  {
    if n > 0 {
      HitsUpdate(results, id, r, c, n - 1);
    }
  }

  /** Entries under other keys, deletes and overwrites. */
  lemma ForeignKeepsInv(key: string, s: State, e: Entry)
    requires Inv(key, s)
    ensures Inv(key, s.(log := s.log + [e], authors := s.authors + [Other]))
  {
    var s' := s.(log := s.log + [e], authors := s.authors + [Other]);
    AppendKeeps(key, s, s', e, Other);
    forall c: nat ensures Count(s'.authors, c) == Hits(s'.results, c, ATTEMPTS) {
      CountAppend(s.authors, Other, c);
    }
    forall c: nat | c < |s.callers| ensures CallerOk(key, s', c) {
      assert CallerOk(key, s, c);
      ResultsInRange(key, s, c);
    }
    forall id | id in s.wire ensures WireOk(key, s', id) {
      assert WireOk(key, s, id);
    }
    forall id | id in s.results ensures ResultOk(key, s', id) {
      assert ResultOk(key, s, id);
    }
  }

  /** Recorded revisions of caller c point into the log. */
  lemma ResultsInRange(key: string, s: State, c: nat)
    requires Inv(key, s) && c < |s.callers|
    ensures var id := (c, s.callers[c].attempt);
            id in s.results && s.results[id].Some? ==> s.results[id].value <= |s.log|
  {
    var id := (c, s.callers[c].attempt);
    assert id in s.results ==> ResultOk(key, s, id);
  }

  /** The server's check makes the new entry exactly one increment more than the current counter. */
  lemma AcceptedIsCurrent(key: string, s: State, id: (nat, nat))
    requires Inv(key, s) && id in s.wire && id.0 < |s.callers|
    requires Receive(key, s, id, s.callers[id.0].delta).log != s.log
    ensures var req := s.wire[id];
            && Receive(key, s, id, s.callers[id.0].delta).log == s.log + [Entry(key, Put, FormatInt(req.next))]
            && req.next == Wrap64(Sum(key, s.log, s.authors, |s.log|) + s.callers[id.0].delta)
  {
    var req := s.wire[id];
    assert WireOk(key, s, id);
    if req.expected == 0 {
      SumWhenNotFound(key, s.log, s.authors);
    } else {
      SumStays(key, s.log, s.authors, req.expected, |s.log|);
    }
  }

  lemma DeliverKeepsInv(key: string, s: State, c: nat, a: nat)
    requires Inv(key, s) && Apply(key, s, Deliver(c, a)).Some?
    ensures Inv(key, Apply(key, s, Deliver(c, a)).value)
  {
    var id, d := (c, a), s.callers[c].delta;
    var s' := Receive(key, s, id, d);
    assert WireOk(key, s, id);
    if s'.log == s.log {
      RejectKeepsInv(key, s, id);
    } else {
      AcceptedIsCurrent(key, s, id);
      AcceptKeepsInv(key, s, id, s.wire[id].next);
    }
  }

  lemma RejectKeepsInv(key: string, s: State, id: (nat, nat))
    requires Inv(key, s) && id in s.wire
    ensures Inv(key, s.(wire := s.wire - {id}, results := s.results[id := None]))
  {
    var s' := s.(wire := s.wire - {id}, results := s.results[id := None]);
    assert WireOk(key, s, id);
    forall c: nat ensures Count(s'.authors, c) == Hits(s'.results, c, ATTEMPTS) {
      HitsUpdate(s.results, id, None, c, ATTEMPTS);
    }
    forall c: nat | c < |s.callers| ensures CallerOk(key, s', c) {
      assert CallerOk(key, s, c);
    }
    forall id' | id' in s'.wire ensures WireOk(key, s', id') {
      assert WireOk(key, s, id');
    }
    forall id' | id' in s'.results ensures ResultOk(key, s', id') {
      assert id' != id ==> ResultOk(key, s, id');
    }
  }

  /** The server has applied request `id`, writing `next`. */
  function AfterAccept(key: string, s: State, id: (nat, nat), next: int): State
    requires id.0 < |s.callers|
  {
    s.(log := s.log + [Entry(key, Put, FormatInt(next))],
       authors := s.authors + [By(id.0, id.1, s.callers[id.0].delta)],
       wire := s.wire - {id}, results := s.results[id := Some(|s.log| + 1)])
  }

  lemma AcceptCounts(key: string, s: State, id: (nat, nat), next: int, c: nat)
    requires Inv(key, s) && id in s.wire && id.0 < |s.callers|
    ensures var s' := AfterAccept(key, s, id, next); Count(s'.authors, c) == Hits(s'.results, c, ATTEMPTS)
  {
    assert WireOk(key, s, id);
    CountAppend(s.authors, By(id.0, id.1, s.callers[id.0].delta), c);
    HitsUpdate(s.results, id, Some(|s.log| + 1), c, ATTEMPTS);
  }

  lemma AcceptEntries(key: string, s: State, id: (nat, nat), next: int)
    requires Inv(key, s) && id in s.wire && id.0 < |s.callers|
    requires next == Wrap64(Sum(key, s.log, s.authors, |s.log|) + s.callers[id.0].delta)
    ensures var s' := AfterAccept(key, s, id, next);
            && next == Wrap64(Sum'(key, s', |s.log| + 1))
            && forall i: nat {:trigger EntryOk(key, s'.log, s'.authors, i)} :: EntryOk(key, s'.log, s'.authors, i)
  {
    var s', n := AfterAccept(key, s, id, next), |s.log|;
    var a := By(id.0, id.1, s.callers[id.0].delta);
    assert WireOk(key, s, id);
    AppendKeeps(key, s, s', Entry(key, Put, FormatInt(next)), a);
    assert Sum(key, s'.log, s'.authors, n + 1) == Sum(key, s.log, s.authors, n) + a.delta;
    assert EntryOk(key, s'.log, s'.authors, n);
  }

  lemma AcceptCaller(key: string, s: State, id: (nat, nat), next: int, c: nat)
    requires Inv(key, s) && id in s.wire && id.0 < |s.callers| && next == s.wire[id].next && c < |s.callers|
    requires next == Wrap64(Sum(key, s.log, s.authors, |s.log|) + s.callers[id.0].delta)
    ensures CallerOk(key, AfterAccept(key, s, id, next), c)
  {
    var s' := AfterAccept(key, s, id, next);
    assert WireOk(key, s, id) && CallerOk(key, s, c);
    AcceptEntries(key, s, id, next);
    AppendKeeps(key, s, s', Entry(key, Put, FormatInt(next)), By(id.0, id.1, s.callers[id.0].delta));
    ResultsInRange(key, s, c);
  }

  lemma AcceptWire(key: string, s: State, id: (nat, nat), next: int)
    requires Inv(key, s) && id in s.wire && id.0 < |s.callers|
    ensures var s' := AfterAccept(key, s, id, next);
            && (forall id' {:trigger WireOk(key, s', id')} :: id' in s'.wire ==> WireOk(key, s', id'))
            && (forall id' {:trigger ResultOk(key, s', id')} :: id' in s'.results ==> ResultOk(key, s', id'))
  {
    var s' := AfterAccept(key, s, id, next);
    assert WireOk(key, s, id);
    AppendKeeps(key, s, s', Entry(key, Put, FormatInt(next)), By(id.0, id.1, s.callers[id.0].delta));
    forall id' | id' in s'.wire ensures WireOk(key, s', id') {
      assert WireOk(key, s, id');
    }
    forall id' | id' in s'.results ensures ResultOk(key, s', id') {
      assert id' != id ==> ResultOk(key, s, id');
    }
  }

  lemma AcceptKeepsInv(key: string, s: State, id: (nat, nat), next: int)
    requires Inv(key, s) && id in s.wire && id.0 < |s.callers| && next == s.wire[id].next
    requires next == Wrap64(Sum(key, s.log, s.authors, |s.log|) + s.callers[id.0].delta)
    ensures Inv(key, AfterAccept(key, s, id, next))
  {
    var s' := AfterAccept(key, s, id, next);
    AcceptEntries(key, s, id, next);
    AcceptWire(key, s, id, next);
    forall c: nat ensures Count(s'.authors, c) == Hits(s'.results, c, ATTEMPTS) {
      AcceptCounts(key, s, id, next, c);
    }
    forall c: nat | c < |s.callers| ensures CallerOk(key, s', c) {
      AcceptCaller(key, s, id, next, c);
    }
  }

  // ----- a caller's own steps

  /** What a caller reads from any replica is the counter as it was at the revision it reads. */
  lemma ReadIsBase(key: string, s: State, upTo: nat)
    requires Inv(key, s) && upTo <= |s.log|
    ensures var (current, rev) := Observed(s.log[..upTo], key);
            && BaseOk(key, s.log, rev)
            && current == Wrap64(if rev == 0 then 0 else Sum(key, s.log, s.authors, rev))
  {
    var (current, rev) := Observed(s.log[..upTo], key);
    if rev > 0 {
      assert EntryOk(key, s.log, s.authors, rev - 1);
      ParseFormatInt(Wrap64(Sum(key, s.log, s.authors, rev)));
    }
  }

  /** Replacing one caller's record, keeping its delta, where nothing sent becomes unsent. */
  lemma CallerStepKeepsInv(key: string, s: State, c: nat, w: Caller)
    requires Inv(key, s) && c < |s.callers| && w.delta == s.callers[c].delta
    requires w.attempt >= s.callers[c].attempt
    requires s.callers[c].pc.Waiting? ==> Decided(w.pc) || w.attempt > s.callers[c].attempt
    requires !s.callers[c].pc.Returned?
    requires CallerOk(key, s.(callers := s.callers[c := w]), c)
    ensures Inv(key, s.(callers := s.callers[c := w]))
  {
    var s' := s.(callers := s.callers[c := w]);
    forall d: nat | d < |s'.callers| ensures CallerOk(key, s', d) {
      assert d != c ==> CallerOk(key, s, d);
    }
    forall id | id in s'.wire ensures WireOk(key, s', id) {
      assert WireOk(key, s, id);
    }
    forall id | id in s'.results ensures ResultOk(key, s', id) {
      assert ResultOk(key, s, id);
    }
  }

  lemma OnlySent(key: string, s: State)
    requires Inv(key, s)
    ensures forall id {:trigger Sent(s, id)} :: id in s.wire || id in s.results ==> Sent(s, id)
  {
    forall id | id in s.wire || id in s.results ensures Sent(s, id) {
      if id in s.wire {
        assert WireOk(key, s, id);
      } else {
        assert ResultOk(key, s, id);
      }
    }
  }

  lemma SendKeepsInv(key: string, s: State, c: nat)
    requires Inv(key, s) && Apply(key, s, Send(c)).Some?
    ensures Inv(key, Apply(key, s, Send(c)).value)
  {
    var s' := Apply(key, s, Send(c)).value;
    var id := (c, s.callers[c].attempt);
    assert CallerOk(key, s, c);
    OnlySent(key, s);
    assert !Sent(s, id);
    forall d: nat | d < |s'.callers| ensures CallerOk(key, s', d) {
      assert CallerOk(key, s, d);
    }
    forall id' | id' in s'.wire ensures WireOk(key, s', id') {
      assert id' != id ==> WireOk(key, s, id');
    }
    forall id' | id' in s'.results ensures ResultOk(key, s', id') {
      assert ResultOk(key, s, id');
    }
  }

  lemma StartKeepsInv(key: string, s: State, delta: int)
    requires Inv(key, s) && IsInt64(delta)
    ensures Inv(key, s.(callers := s.callers + [Caller(delta, 0, Reading)]))
  {
    var s' := s.(callers := s.callers + [Caller(delta, 0, Reading)]);
    forall d: nat | d < |s'.callers| ensures CallerOk(key, s', d) {
      assert d < |s.callers| ==> CallerOk(key, s, d);
    }
    forall id | id in s'.wire ensures WireOk(key, s', id) {
      assert WireOk(key, s, id);
    }
    forall id | id in s'.results ensures ResultOk(key, s', id) {
      assert ResultOk(key, s, id);
    }
  }

  lemma LoseKeepsInv(key: string, s: State, id: (nat, nat))
    requires Inv(key, s)
    ensures Inv(key, s.(wire := s.wire - {id}))
  {
    var s' := s.(wire := s.wire - {id});
    forall d: nat | d < |s'.callers| ensures CallerOk(key, s', d) {
      assert CallerOk(key, s, d);
    }
    forall id | id in s'.wire ensures WireOk(key, s', id) {
      assert WireOk(key, s, id);
    }
    forall id | id in s'.results ensures ResultOk(key, s', id) {
      assert ResultOk(key, s, id);
    }
  }

  lemma PcStepKeepsInv(key: string, s: State, e: Event)
    requires Inv(key, s) && Apply(key, s, e).Some?
    requires e.Read? || e.ReadError? || e.Reply? || e.GiveUp?
    ensures Inv(key, Apply(key, s, e).value)
  {
    var s' := Apply(key, s, e).value;
    assert CallerOk(key, s, e.c);
    if e.Read? {
      ReadIsBase(key, s, e.upTo);
      var (_, rev) := Observed(s.log[..e.upTo], key);
      WrapAdd(if rev == 0 then 0 else Sum(key, s.log, s.authors, rev), s.callers[e.c].delta);
    }
    if e.Reply? {
      var id := (e.c, s.callers[e.c].attempt);
      assert ResultOk(key, s, id);
    }
    assert s' == s.(callers := s.callers[e.c := s'.callers[e.c]]);
    CallerStepKeepsInv(key, s, e.c, s'.callers[e.c]);
  }

  lemma StepKeepsInv(key: string, s: State, e: Event)
    requires Inv(key, s) && Apply(key, s, e).Some?
    ensures Inv(key, Apply(key, s, e).value)
  {
    match e
    case Start(delta) => StartKeepsInv(key, s, delta);
    case Send(c) => SendKeepsInv(key, s, c);
    case Deliver(c, a) => DeliverKeepsInv(key, s, c, a);
    case Lose(c, a) => LoseKeepsInv(key, s, (c, a));
    case OtherKey(entry) => ForeignKeepsInv(key, s, entry);
    case Delete => ForeignKeepsInv(key, s, Entry(key, Marker, ""));
    case Overwrite(data) => ForeignKeepsInv(key, s, Entry(key, Put, data));
    case _ => PcStepKeepsInv(key, s, e);
  }

  lemma {:induction false} RunKeepsInv(key: string, s: State, es: seq<Event>)
    requires Inv(key, s) && Run(key, s, es).Some?
    ensures Inv(key, Run(key, s, es).value)
    decreases |es|
  {
    if es != [] {
      StepKeepsInv(key, s, es[0]);
      RunKeepsInv(key, Apply(key, s, es[0]).value, es[1..]);
    }
  }
}
