/**
 The batched write path as the program runs it: the flush, the fill loop of the flusher and `put`,
 as methods over a shared bucket. Between any two atomic steps of a method, `Others` lets every
 other thread, the network and the server take any run of steps of their own.
 */
module Batcher {
  import opened Wrappers
  import opened SeqFacts
  import opened BatchProtocol
  import opened BatchInvariant
  import opened BatchProgress
  import opened BatchSafety
  import opened SubjectMatch

  /** The flusher goroutine of the bucket, the goroutine of one flush, or that of one caller of `put`. */
  datatype Thread = TheFlusher | OneFlush(f: nat) | OneCaller(c: nat)

  predicate OwnedBy(e: Event, t: Thread) {
    match t
    case TheFlusher => e.First? || e.Fill? || e.Timer? || e.Full? || e.Dispatch?
    case OneFlush(f) => (e.Publish? || e.PublishError? || e.AckArrives? || e.GiveUp? || e.Answer?) && e.f == f
    case OneCaller(c) => e == Enqueue(c)
  }

  /** What belongs to a thread and stays as it is while others run. */
  ghost predicate Keeps(s: State, s': State, t: Thread) {
    match t
    case TheFlusher => s'.flusher == s.flusher && s.queue <= s'.queue && s'.batches == s.batches
    case OneFlush(f) => f < |s.flushes| ==> f < |s'.flushes| && s'.flushes[f] == s.flushes[f]
    case OneCaller(c) => c in s.waiting ==> c in s'.waiting
  }

  /** What a thread may rely on while others run. */
  ghost predicate Undisturbed(s: State, s': State, t: Thread) {
    Extends(s, s') && Keeps(s, s', t)
  }

  lemma StepKeeps(p: Params, s: State, e: Event, t: Thread)
    requires Apply(p, s, e).Some? && !OwnedBy(e, t)
    ensures Keeps(s, Apply(p, s, e).value, t)
  {
    if e.Deliver? {
      DeliveryFrame(s, e.pkt);
    } else if e.Publish? || e.PublishError? || e.AckArrives? || e.GiveUp? || e.Answer? {
      FlushStepFrame(p, s, e);
    }
  }

  lemma StepUndisturbing(p: Params, s: State, e: Event, t: Thread)
    requires p.Valid() && Inv(p, s) && Apply(p, s, e).Some? && !OwnedBy(e, t)
    ensures Undisturbed(s, Apply(p, s, e).value, t)
  {
    StepExtends(p, s, e);
    StepKeeps(p, s, e, t);
  }

  lemma {:induction false} OthersUndisturbing(p: Params, s: State, es: seq<Event>, t: Thread)
    requires p.Valid() && Inv(p, s) && Run(p, s, es).Some?
    requires forall e :: e in es ==> !OwnedBy(e, t)
    ensures Undisturbed(s, Run(p, s, es).value, t)
    decreases |es|
  {
    if es != [] {
      assert es[0] in es;
      var s1 := Apply(p, s, es[0]).value;
      StepUndisturbing(p, s, es[0], t);
      StepKeepsInv(p, s, es[0]);
      OthersUndisturbing(p, s1, es[1..], t);
    }
  }

  lemma StepReachable(p: Params, s: State, e: Event)
    requires p.Valid() && Reachable(p, s) && Apply(p, s, e).Some?
    ensures Reachable(p, Apply(p, s, e).value)
  {
    var es :| Run(p, Init, es) == Some(s);
    var es', s' := Then(p, es, s, e);
  }

  function BatchOf(s: State, f: nat): seq<BatchPut> {
    if f < |s.batches| then s.batches[f] else []
  }

  function AckFor(s: State, f: nat): Option<nat> {
    if f in s.acks then Some(s.acks[f]) else None
  }

  /** Where in its code a flush must be to take step `e`. */
  predicate Ready(fl: Flush, n: nat, e: Event) {
    match e
    case Publish(_) => fl.pc.Publishing?
    case PublishError(_) => fl.pc.Publishing? && fl.published < n - 1
    case AckArrives(_) => fl.pc.Awaiting?
    case GiveUp(_) => fl.pc.Awaiting?
    case Answer(_) => fl.pc.Answering?
    case _ => false
  }

  function NextPc(fl: Flush, n: nat, e: Event, ack: Option<nat>): Pc {
    match e
    case Publish(_) => if fl.published + 1 == n then Awaiting else Publishing
    case PublishError(_) => Answering(None, 0)
    case AckArrives(_) => Answering(ack, 0)
    case GiveUp(_) => Answering(None, 0)
    case _ =>
      if !fl.pc.Answering? then fl.pc
      else if fl.pc.next + 1 == n then Done(fl.pc.ack)
      else Answering(fl.pc.ack, fl.pc.next + 1)
  }

  /** The caller's message is in the queue or beyond it. */
  ghost predicate Accepted(s: State, c: nat) {
    exists i {:trigger s.accepted[i]} :: 0 <= i < |s.accepted| && s.accepted[i].resp == c
  }

  /** How the wait for an ack stands. */
  datatype Wait = Acked | Failed | StillWaiting

  class Bucket {
    const p: Params
    var st: State

    ghost predicate Valid()
      reads this
    {
      p.Valid() && Reachable(p, st)
    }

    constructor (p: Params)
      requires p.Valid()
      ensures Valid() && this.p == p && st == Init
    {
      this.p := p;
      st := Init;
      new;
      assert Run(p, Init, []) == Some(st);
    }

    /** One atomic step of the calling thread. */
    method Step(e: Event)
      requires Valid() && Apply(p, st, e).Some?
      modifies this
      ensures Valid() && st == Apply(p, old(st), e).value && Extends(old(st), st)
    {
      ReachableInv(p, st);
      StepReachable(p, st, e);
      StepExtends(p, st, e);
      st := Apply(p, st, e).value;
    }

    /** Every other thread and the environment run for a while. */
    method Others(t: Thread)
      requires Valid()
      modifies this
      ensures Valid() && Undisturbed(old(st), st, t)
    {
      var es: seq<Event> := *;
      if (forall e :: e in es ==> !OwnedBy(e, t)) && Run(p, st, es).Some? {
        ReachableInv(p, st);
        OthersUndisturbing(p, st, es, t);
        ReachableRun(p, st, es);
        st := Run(p, st, es).value;
      }
    }

    /** The rest of `put`: sends on the queue, then receives the result. None while the caller is still
        blocked, on a full queue or on its response channel. */
    method SendAndReceive(c: nat) returns (r: Option<Outcome>)
      requires Valid() && c in st.waiting
      modifies this
      ensures Valid() && Extends(old(st), st)
      ensures r.Some? ==> c in st.answers && st.answers[c].outcome == r.value
      ensures r.Some? && r.value.Revision? ==>
                && c < |st.calls| && 1 <= r.value.rev <= |st.log|
                && st.log[r.value.rev - 1].msg == st.calls[c]
      ensures r == None ==>
                || (c in st.waiting && |st.queue| >= 4096)
                || (Accepted(st, c) && c !in st.answers)
    {
      ReachableInv(p, st);
      Others(OneCaller(c));
      ReachableInv(p, st);
      if |st.queue| >= QUEUE_DEPTH {
        return None;
      }
      Step(Enqueue(c));
      assert st.accepted[|st.accepted| - 1].resp == c;
      ghost var sent := st;
      Others(OneCaller(c));
      assert sent.accepted[|sent.accepted| - 1] == st.accepted[|sent.accepted| - 1];
      if c !in st.answers {
        return None;
      }
      r := Some(st.answers[c].outcome);
      if r.value.Revision? {
        SuccessfulPut(p, st, c);
      }
    }

    /** One step of flush `f`, after others have run. */
    method FlushTurn(f: nat, e: Event)
      requires Valid() && OwnedBy(e, OneFlush(f)) && f < |st.flushes|
      requires e.AckArrives? ==> f in st.acks
      requires Ready(st.flushes[f], |BatchOf(st, f)|, e)
      modifies this
      ensures Valid() && Extends(old(st), st) && f < |st.flushes|
      ensures BatchOf(st, f) == old(BatchOf(st, f))
      ensures st.flushes[f].published == old(st.flushes[f].published) + if e.Publish? then 1 else 0
      ensures st.flushes[f].pc == NextPc(old(st.flushes[f]), |BatchOf(st, f)|, e, AckFor(st, f))
    {
      ReachableInv(p, st);
      Others(OneFlush(f));
      ReachableInv(p, st);
      assert FlushOk(st.batches[f], st.flushes[f], f, st.acks);
      Step(e);
    }

    /** Answers every caller of a flush, in batch order. */
    method SendResults(f: nat)
      requires Valid() && f < |st.flushes| && st.flushes[f].pc.Answering? && st.flushes[f].pc.next == 0
      requires BatchOf(st, f) != []
      modifies this
      ensures Valid() && Extends(old(st), st) && f < |st.flushes|
      ensures st.flushes[f].pc == Done(old(st.flushes[f].pc.ack))
    {
      var n, ack := |BatchOf(st, f)|, st.flushes[f].pc.ack;
      var i := 0;
      while i < n
        invariant 0 <= i <= n
        invariant Valid() && Extends(old(st), st) && f < |st.flushes|
        invariant |BatchOf(st, f)| == n
        invariant st.flushes[f].pc == if i == n then Done(ack) else Answering(ack, i)
      {
        FlushTurn(f, Answer(f));
        i := i + 1;
      }
    }

    /** Hands the batch to the connection, message by message, and stops at the first error; `fails` says which
        hand-overs the connection refuses. The last message, the commit, is waited for instead. */
    method PublishBatch(f: nat, fails: nat -> bool) returns (err: bool)
      requires Valid() && f < |st.flushes| && st.flushes[f] == Flush(0, Publishing) && BatchOf(st, f) != []
      modifies this
      ensures Valid() && Extends(old(st), st) && f < |st.flushes| && BatchOf(st, f) != []
      ensures st.flushes[f].pc == if err then Answering(None, 0) else Awaiting
      ensures BatchOf(st, f) == old(BatchOf(st, f))
      ensures var done := st.flushes[f].published;
              && (forall i: nat :: i < done && i < |BatchOf(st, f)| - 1 ==> !fails(i))
              && (if err then done < |BatchOf(st, f)| - 1 && fails(done) else done == |BatchOf(st, f)|)
    {
      var n := |BatchOf(st, f)|;
      var i := 0;
      while i < n - 1
        invariant 0 <= i <= n - 1
        invariant Valid() && Extends(old(st), st) && f < |st.flushes| && |BatchOf(st, f)| == n
        invariant BatchOf(st, f) == old(BatchOf(st, f))
        invariant st.flushes[f] == Flush(i, Publishing)
        invariant forall j: nat :: j < i ==> !fails(j)
      {
        if fails(i) {
          FlushTurn(f, PublishError(f));
          return true;
        }
        FlushTurn(f, Publish(f));
        i := i + 1;
      }
      FlushTurn(f, Publish(f));
      err := false;
    }

    /** Waits for the ack of the published batch, or for the error that ends the wait, which is `timesOut`. */
    method AwaitAck(f: nat, timesOut: bool) returns (w: Wait)
      requires Valid() && f < |st.flushes| && st.flushes[f].pc.Awaiting?
      modifies this
      ensures Valid() && Extends(old(st), st) && f < |st.flushes| && BatchOf(st, f) == old(BatchOf(st, f))
      ensures w.Failed? <==> timesOut
      ensures w.Acked? ==> f in st.acks && st.flushes[f].pc == Answering(Some(st.acks[f]), 0)
      ensures w.Failed? ==> st.flushes[f].pc == Answering(None, 0)
      ensures w.StillWaiting? ==> f !in st.acks && st.flushes[f].pc.Awaiting?
    {
      ReachableInv(p, st);
      Others(OneFlush(f));
      if timesOut {
        FlushTurn(f, GiveUp(f));
        return Failed;
      }
      if f !in st.acks {
        return StillWaiting;
      }
      FlushTurn(f, AckArrives(f));
      w := Acked;
    }

    /** `flush`: publishes the batch, waits for the commit's ack and answers the callers. It fails exactly when
        the connection refused a message or the wait ended with an error; otherwise it has every caller's
        revision, or is still waiting because there is no ack. */
    method RunFlush(f: nat, fails: nat -> bool, timesOut: bool) returns (w: Wait)
      requires Valid() && f < |st.flushes| && st.flushes[f] == Flush(0, Publishing)
      modifies this
      ensures Valid() && Extends(old(st), st) && f < |st.flushes|
      ensures BatchOf(st, f) == BatchOf(old(st), f) != []
      ensures w.Failed? <==> timesOut || exists i: nat :: i < |BatchOf(st, f)| - 1 && fails(i)
      ensures w.StillWaiting? ==> f !in st.acks && st.flushes[f].pc.Awaiting?
      ensures !w.StillWaiting? ==> st.flushes[f].pc.Done?
      ensures !w.StillWaiting? ==>
                forall i :: 0 <= i < |BatchOf(st, f)| ==> ResultDelivered(st, f, BatchOf(st, f), i, w.Acked?)
    {
      ReachableInv(p, st);
      var err := PublishBatch(f, fails);
      w := Failed;
      if !err {
        w := AwaitAck(f, timesOut);
        if w.StillWaiting? {
          return;
        }
      }
      SendResults(f);
      Delivered(p, st, f);
      assert w.Acked? <==> st.flushes[f].pc.ack.Some?;
    }

    /** One round of `flushLoop`: takes the first queued put and fills the batch until it is full or the timer fires:
        `timer` says at which sizes it fires although another put is queued. */
    method FillBatch(timer: nat -> bool) returns (batch: seq<BatchPut>)
      requires Valid() && st.flusher.Idle? && st.queue != []
      modifies this
      ensures Valid() && Extends(old(st), st) && st.flusher == Sealed(batch)
      ensures st.batches == old(st.batches)
      ensures 1 <= |batch| <= p.max
      ensures |batch| < p.max ==> timer(|batch|) || st.queue == []
      ensures Flatten(st.batches) + batch <= st.accepted
    {
      Step(First);
      batch := st.flusher.batch;
      while |batch| < p.max
        invariant Valid() && Extends(old(st), st) && st.flusher == Filling(batch)
        invariant st.batches == old(st.batches)
        invariant 1 <= |batch| <= p.max
        decreases p.max - |batch|
      {
        Others(TheFlusher);
        if st.queue == [] || timer(|batch|) {
          Step(Timer);
          ReachableInv(p, st);
          return;
        }
        Step(Fill);
        batch := st.flusher.batch;
      }
      Step(Full);
      ReachableInv(p, st);
    }

    /** The end of a round: with a free semaphore slot the batch becomes a flush of its own and the flusher
        is idle again; without one it stays blocked, holding the batch. */
    method StartFlush(batch: seq<BatchPut>) returns (started: bool)
      requires Valid() && st.flusher == Sealed(batch)
      modifies this
      ensures Valid() && Extends(old(st), st)
      ensures started ==>
                && st.flusher.Idle? && st.batches == old(st.batches) + [batch]
                && |st.batches| == |st.flushes| && st.flushes[|st.flushes| - 1] == Flush(0, Publishing)
                && |Unfinished(st.flushes)| <= p.inflight
      ensures !started ==> st.flusher == Sealed(batch) && st.batches == old(st.batches) && |Unfinished(st.flushes)| == p.inflight
    {
      Others(TheFlusher);
      ReachableInv(p, st);
      started := Live(st.flushes) < p.inflight;
      if started {
        DispatchStarts(p, st);
        Step(Dispatch);
      }
      LiveCounts(st.flushes);
    }
  }

  lemma DispatchStarts(p: Params, s: State)
    requires p.Valid() && Reachable(p, s) && s.flusher.Sealed? && Live(s.flushes) < p.inflight
    ensures var s' := Apply(p, s, Dispatch).value;
            && BatchOf(s', |s.batches|) == s.flusher.batch
            && |s.batches| < |s'.flushes| && s'.flushes[|s.batches|] == Flush(0, Publishing)
            && Live(s'.flushes) <= p.inflight
  {
    ReachableInv(p, s);
    StepReachable(p, s, Dispatch);
    ReachableInv(p, Apply(p, s, Dispatch).value);
  }

  /** Caller i of flush f got its own revision, where its own message is; or an error, as all of its batch did. */
  ghost predicate ResultDelivered(s: State, f: nat, b: seq<BatchPut>, i: nat, ok: bool)
    requires i < |b|
  {
    && b[i].resp in s.answers
    && s.answers[b[i].resp].outcome.Revision? == ok
    && (ok ==> var rev := s.answers[b[i].resp].outcome.rev;
               1 <= rev <= |s.log| && s.log[rev - 1] == Own(f, i, b[i].msg))
  }

  lemma Delivered(p: Params, s: State, f: nat)
    requires p.Valid() && Reachable(p, s) && f < |s.flushes| && s.flushes[f].pc.Done?
    ensures forall i :: 0 <= i < |BatchOf(s, f)| ==> ResultDelivered(s, f, BatchOf(s, f), i, s.flushes[f].pc.ack.Some?)
  {
    ReachableInv(p, s);
    assert ServedOk(s.answers, s.batches[f], s.flushes[f]);
    forall i: nat | i < |s.batches[f]| ensures ResultDelivered(s, f, s.batches[f], i, s.flushes[f].pc.ack.Some?) {
      var c := s.batches[f][i].resp;
      var r := s.answers[c];
      assert ReplyOk(c, r, s.batches, s.flushes);
      DistinctChannels(p, s, f, i, r.flush, r.pos);
      if r.outcome.Revision? {
        SuccessfulPut(p, s, c);
        BatchPosition(p, s, f, i);
      }
    }
  }

  function ClampedOr(v: Option<int>, lo: int, hi: int, default: int): int {
    if v.Some? && lo <= v.value <= hi then v.value else default
  }

  class Batching {
    const p: Params
    /** The flush window in microseconds. */
    const window: int
    var queues: map<string, Bucket>

    /** At most one queue, and so one flusher, per bucket. */
    ghost predicate Valid()
      reads this, queues.Values
    {
      && p.Valid() && window > 0
      && (forall b :: b in queues ==> queues[b].Valid() && queues[b].p == p)
      && (forall b, c :: b in queues && c in queues && b != c ==> queues[b] != queues[c])
    }

    /** `newBatcherFromEnv`, given the settings that parsed as integers. */
    constructor (max: Option<int>, inflight: Option<int>, window: Option<int>)
      ensures Valid() && queues == map[]
      ensures p.max == if max.Some? && 2 <= max.value <= 1000 then max.value else 128
      ensures p.inflight == if inflight.Some? && 1 <= inflight.value <= 50 then inflight.value else 8
      ensures this.window == if window.Some? && window.value > 0 then window.value else 1000
    {
      p := Params(ClampedOr(max, 2, MAX_BATCH, 128), ClampedOr(inflight, 1, MAX_INFLIGHT, 8));
      this.window := if window.Some? && window.value > 0 then window.value else 1000;
      queues := map[];
    }

    /** `put` up to its send: finds or creates the bucket's queue under the lock and issues the call.
        Returns the queue and the response channel. */
    method Issue(bucket: string, key: string, data: Bytes) returns (q: Bucket, resp: nat)
      requires Valid()
      modifies this, queues.Values
      ensures Valid() && bucket in queues && q == queues[bucket]
      ensures queues.Keys == old(queues.Keys) + {bucket}
      ensures forall b :: b in old(queues) ==> queues[b] == old(queues[b])
      ensures forall b :: b in old(queues) && b != bucket ==> queues[b].st == old(queues[b].st)
      ensures bucket !in old(queues) ==> fresh(q) && resp == 0
      ensures bucket in old(queues) ==> resp == |old(queues[bucket].st.calls)| && Extends(old(queues[bucket].st), q.st)
      ensures q.st.calls[..resp] + [Subject(bucket, key, data)] == q.st.calls
      ensures resp in q.st.waiting
    {
      if bucket !in queues {
        var created := new Bucket(p);
        queues := queues[bucket := created];
      }
      q := queues[bucket];
      resp := |q.st.calls|;
      q.Step(Call(Subject(bucket, key, data)));
    }

    /** `put`: the revision at which the stream holds exactly this key's write, or an error; None while the
        caller is blocked. Other buckets are not touched. */
    method Put(bucket: string, key: string, data: Bytes) returns (q: Bucket, r: Option<Outcome>)
      requires Valid()
      modifies this, queues.Values
      ensures Valid() && bucket in queues && q == queues[bucket]
      ensures queues.Keys == old(queues.Keys) + {bucket}
      ensures forall b :: b in old(queues) ==> queues[b] == old(queues[b])
      ensures forall b :: b in old(queues) && b != bucket ==> queues[b].st == old(queues[b].st)
      ensures bucket !in old(queues) ==> fresh(q)
      ensures r.Some? && r.value.Revision? ==>
                && 1 <= r.value.rev <= |q.st.log| && q.st.log[r.value.rev - 1].msg.data == data
                && Split(q.st.log[r.value.rev - 1].msg.subj) == ["$KV"] + Split(bucket) + Split(key)
    {
      var resp: nat;
      q, resp := Issue(bucket, key, data);
      assert q.st.calls[resp] == Subject(bucket, key, data);
      r := q.SendAndReceive(resp);
      SubjectTokens(bucket, key, data);
    }
  }

  function Subject(bucket: string, key: string, data: Bytes): Message {
    Message("$KV." + bucket + "." + key, data)
  }

  lemma SubjectTokens(bucket: string, key: string, data: Bytes)
    ensures Split(Subject(bucket, key, data).subj) == ["$KV"] + Split(bucket) + Split(key)
  {
    SplitAtDot("$KV." + bucket, key);
    SplitAtDot("$KV", bucket);
    assert "$KV" + "." + bucket == "$KV." + bucket;
    assert Split("$KV") == ["$KV"] by {
      assert Join(["$KV"]) == "$KV";
      SplitOfJoin(["$KV"]);
    }
  }

  /** Subjects are the same exactly when their tokens are. */
  lemma SameTokens(s: string, s': string)
    requires Split(s)[0] == Split(s')[0]
    ensures s == s' <==> Split(s)[1..] == Split(s')[1..]
  {
    JoinSplit(s);
    JoinSplit(s');
    if Split(s)[1..] == Split(s')[1..] {
      assert Split(s) == [Split(s)[0]] + Split(s)[1..];
      assert Split(s') == [Split(s')[0]] + Split(s')[1..];
    }
  }

  lemma SubjectTail(bucket: string, key: string, data: Bytes)
    ensures var tokens := Split(Subject(bucket, key, data).subj);
            tokens[0] == "$KV" && tokens[1..] == Split(bucket) + Split(key)
  {
    SubjectTokens(bucket, key, data);
  }

  lemma DotFreeBucket(bucket: string, key: string)
    requires DotFree(bucket)
    ensures (Split(bucket) + Split(key))[0] == bucket && (Split(bucket) + Split(key))[1..] == Split(key)
  {
    assert Join([bucket]) == bucket;
    SplitOfJoin([bucket]);
  }

  /** Puts share a subject exactly when bucket and key have the same tokens in all: never for different keys of
      one bucket, nor for different buckets without dots. */
  lemma SubjectsCollide(bucket: string, key: string, data: Bytes, bucket': string, key': string, data': Bytes)
    ensures var same := Subject(bucket, key, data).subj == Subject(bucket', key', data').subj;
            && (same <==> Split(bucket) + Split(key) == Split(bucket') + Split(key'))
            && (bucket == bucket' ==> (same <==> key == key'))
            && (DotFree(bucket) && DotFree(bucket') ==> (same <==> bucket == bucket' && key == key'))
  {
    SubjectTail(bucket, key, data);
    SubjectTail(bucket', key', data');
    SameTokens(Subject(bucket, key, data).subj, Subject(bucket', key', data').subj);
    JoinSplit(key);
    JoinSplit(key');
    if bucket == bucket' {
      assert (Split(bucket) + Split(key))[|Split(bucket)|..] == Split(key);
      assert (Split(bucket) + Split(key'))[|Split(bucket)|..] == Split(key');
    }
    if DotFree(bucket) && DotFree(bucket') {
      DotFreeBucket(bucket, key);
      DotFreeBucket(bucket', key');
    }
  }
}
