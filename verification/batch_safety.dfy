/** What every run of the batched write path guarantees to its callers. */
module BatchSafety {
  import opened Wrappers
  import opened SeqFacts
  import opened BatchProtocol
  import opened BatchInvariant

  ghost predicate Reachable(p: Params, s: State) {
    exists es :: Run(p, Init, es) == Some(s)
  }

  lemma ReachableInv(p: Params, s: State)
    requires p.Valid() && Reachable(p, s)
    ensures Inv(p, s)
  {
    var es :| Run(p, Init, es) == Some(s);
    InitInv(p);
    RunKeepsInv(p, Init, es);
  }

  // ----- revisions

  /** The uint64 expression of the source is exact: it never underflows and never wraps. */
  lemma RevisionIsExact(p: Params, s: State, f: nat, i: nat)
    requires p.Valid() && Reachable(p, s)
    requires f in s.acks && f < |s.batches| && i < |s.batches[f]|
    ensures s.acks[f] >= |s.batches[f]|
    ensures RevisionOf(s.acks[f], |s.batches[f]|, i) == s.acks[f] - (|s.batches[f]| - 1) + i
    ensures 1 <= RevisionOf(s.acks[f], |s.batches[f]|, i) <= |s.log| < UINT64
  {
    ReachableInv(p, s);
    assert AckOk(f, s.acks[f], s.batches, s.flushes, s.log);
  }

  /** A put that returned (rev, nil) has exactly its own subject and data at log position rev. */
  lemma SuccessfulPut(p: Params, s: State, c: nat)
    requires p.Valid() && Reachable(p, s)
    requires c in s.answers && s.answers[c].outcome.Revision?
    ensures c < |s.calls|
    ensures var r := s.answers[c];
            && 1 <= r.outcome.rev <= |s.log|
            && s.log[r.outcome.rev - 1] == Own(r.flush, r.pos, s.calls[c])
  {
    ReachableInv(p, s);
    var r := s.answers[c];
    assert ReplyOk(c, r, s.batches, s.flushes);
    assert FlushOk(s.batches[r.flush], s.flushes[r.flush], r.flush, s.acks);
    assert AckOk(r.flush, s.acks[r.flush], s.batches, s.flushes, s.log);
    assert Placed(s.log, r.flush, s.batches[r.flush], s.acks[r.flush], r.pos);
    RevisionIsExact(p, s, r.flush, r.pos);
    BatchPosition(p, s, r.flush, r.pos);
  }

  /** Distinct successful puts have distinct revisions. */
  lemma DistinctRevisions(p: Params, s: State, c: nat, d: nat)
    requires p.Valid() && Reachable(p, s)
    requires c in s.answers && s.answers[c].outcome.Revision?
    requires d in s.answers && s.answers[d].outcome == s.answers[c].outcome
    ensures c == d
  {
    ReachableInv(p, s);
    SuccessfulPut(p, s, c);
    SuccessfulPut(p, s, d);
    assert ReplyOk(c, s.answers[c], s.batches, s.flushes);
    assert ReplyOk(d, s.answers[d], s.batches, s.flushes);
  }

  // ----- atomicity

  ghost predicate Absent(log: seq<Slot>, f: nat) {
    forall i :: 0 <= i < |log| ==> !(log[i].Own? && log[i].flush == f)
  }

  /** The log holds batch `b` of flush `f` contiguously from index `base`, in queue order, and nowhere else. */
  ghost predicate PresentAt(log: seq<Slot>, f: nat, b: seq<BatchPut>, base: nat) {
    && base + |b| <= |log|
    && (forall i :: 0 <= i < |b| ==> log[base + i] == Own(f, i, b[i].msg))
    && (forall i :: 0 <= i < |log| && log[i].Own? && log[i].flush == f ==> base <= i < base + |b|)
  }

  /** All of a batch is in the log, contiguously, exactly when the server acknowledged it; else none of it. */
  lemma BatchIsAtomic(p: Params, s: State, f: nat)
    requires p.Valid() && Reachable(p, s) && f < |s.batches|
    ensures 1 <= |s.batches[f]| <= p.max <= MAX_BATCH
    ensures if f in s.acks
            then s.acks[f] >= |s.batches[f]| && PresentAt(s.log, f, s.batches[f], s.acks[f] - |s.batches[f]|)
            else Absent(s.log, f)
  {
    ReachableInv(p, s);
    if f in s.acks {
      assert AckOk(f, s.acks[f], s.batches, s.flushes, s.log);
      forall i: nat | i < |s.batches[f]|
        ensures s.log[s.acks[f] - |s.batches[f]| + i] == Own(f, i, s.batches[f][i].msg)
      {
        assert Placed(s.log, f, s.batches[f], s.acks[f], i);
      }
    }
    forall i | 0 <= i < |s.log| && s.log[i].Own? && s.log[i].flush == f
      ensures f in s.acks && s.acks[f] - |s.batches[f]| <= i < s.acks[f]
    {
      assert SlotOk(s.log[i], i, s.acks, s.batches);
    }
  }

  /** The callers of one batch get all revisions or all errors; revisions only if the batch is in the log. */
  lemma BatchAnswersAgree(p: Params, s: State, c: nat, d: nat)
    requires p.Valid() && Reachable(p, s)
    requires c in s.answers && d in s.answers && s.answers[c].flush == s.answers[d].flush
    ensures s.answers[c].outcome.Revision? <==> s.answers[d].outcome.Revision?
    ensures s.answers[c].outcome.Revision? ==>
              && s.answers[c].flush in s.acks
              && s.answers[c].outcome.rev - s.answers[c].pos == s.answers[d].outcome.rev - s.answers[d].pos
  {
    ReachableInv(p, s);
    var f := s.answers[c].flush;
    assert ReplyOk(c, s.answers[c], s.batches, s.flushes);
    assert ReplyOk(d, s.answers[d], s.batches, s.flushes);
    assert FlushOk(s.batches[f], s.flushes[f], f, s.acks);
    if s.answers[c].outcome.Revision? {
      RevisionIsExact(p, s, s.answers[c].flush, s.answers[c].pos);
      RevisionIsExact(p, s, s.answers[d].flush, s.answers[d].pos);
    }
  }

  // ----- conservation

  datatype Place = Blocked | Queued(i: nat) | Held(i: nat) | InFlight(f: nat, j: nat) | Served(f: nat, j: nat)

  /** Where call `c` is. */
  ghost predicate At(s: State, c: nat, pl: Place) {
    match pl
    case Blocked => c in s.waiting
    case Queued(i) => i < |s.queue| && s.queue[i].resp == c
    case Held(i) => i < |Holding(s.flusher)| && Holding(s.flusher)[i].resp == c
    case InFlight(f, j) => f < |s.batches| && j < |s.batches[f]| && s.batches[f][j].resp == c && c !in s.answers
    case Served(f, j) => f < |s.batches| && j < |s.batches[f]| && s.batches[f][j].resp == c
                         && c in s.answers && s.answers[c].flush == f && s.answers[c].pos == j
  }

  /** The index in `accepted` that a place stands for. */
  function Index(s: State, pl: Place): int {
    match pl
    case Blocked => -1
    case Queued(i) => |Flatten(s.batches)| + |Holding(s.flusher)| + i
    case Held(i) => |Flatten(s.batches)| + i
    case InFlight(f, j) => if f <= |s.batches| then Offset(s.batches, f) + j else -1
    case Served(f, j) => if f <= |s.batches| then Offset(s.batches, f) + j else -1
  }

  lemma PlaceIndex(p: Params, s: State, c: nat, pl: Place)
    requires Inv(p, s) && At(s, c, pl) && !pl.Blocked?
    ensures 0 <= Index(s, pl) < |s.accepted| && s.accepted[Index(s, pl)].resp == c
    ensures pl.Queued? <==> |Flatten(s.batches)| + |Holding(s.flusher)| <= Index(s, pl)
    ensures pl.Held? <==> |Flatten(s.batches)| <= Index(s, pl) < |Flatten(s.batches)| + |Holding(s.flusher)|
  {
    match pl
    case InFlight(f, j) => BatchPosition(p, s, f, j);
    case Served(f, j) => BatchPosition(p, s, f, j);
    case _ =>
  }

  lemma PlaceIsUnique(p: Params, s: State, c: nat, pl: Place, pl': Place)
    requires Inv(p, s) && At(s, c, pl) && At(s, c, pl')
    ensures pl == pl'
  {
    if !pl.Blocked? {
      PlaceIndex(p, s, c, pl);
      assert CallOk(s.calls, s.waiting, s.accepted[Index(s, pl)]);
    }
    if !pl'.Blocked? {
      PlaceIndex(p, s, c, pl');
      assert CallOk(s.calls, s.waiting, s.accepted[Index(s, pl')]);
    }
    if !pl.Blocked? && !pl'.Blocked? && (pl.InFlight? || pl.Served?) {
      DistinctChannels(p, s, pl.f, pl.j, pl'.f, pl'.j);
    }
  }

  lemma PlaceExists(p: Params, s: State, c: nat) returns (pl: Place)
    requires Inv(p, s) && c < |s.calls|
    ensures At(s, c, pl)
  {
    if c in s.waiting {
      return Blocked;
    }
    var i :| 0 <= i < |s.accepted| && s.accepted[i] == BatchPut(c, s.calls[c]);
    var flat, held := Flatten(s.batches), Holding(s.flusher);
    if i >= |flat| + |held| {
      return Queued(i - |flat| - |held|);
    }
    if i >= |flat| {
      return Held(i - |flat|);
    }
    var f, j := FlattenLocate(s.batches, i);
    BatchPosition(p, s, f, j);
    if c !in s.answers {
      return InFlight(f, j);
    }
    var r := s.answers[c];
    assert ReplyOk(c, r, s.batches, s.flushes);
    DistinctChannels(p, s, f, j, r.flush, r.pos);
    return Served(f, j);
  }

  /** Conservation: at every moment each put is in exactly one place, and accepted puts leave in arrival order. */
  lemma PutIsInOnePlace(p: Params, s: State, c: nat) returns (pl: Place)
    requires p.Valid() && Reachable(p, s) && c < |s.calls|
    ensures At(s, c, pl) && forall pl' :: At(s, c, pl') ==> pl' == pl
    ensures Flatten(s.batches) + Holding(s.flusher) + s.queue == s.accepted
  {
    ReachableInv(p, s);
    pl := PlaceExists(p, s, c);
    forall pl' | At(s, c, pl') ensures pl' == pl {
      PlaceIsUnique(p, s, c, pl', pl);
    }
  }

  /** The flushes that have not yet given back their semaphore slot. */
  ghost function Unfinished(fs: seq<Flush>): set<nat> {
    set f: nat | f < |fs| && !fs[f].pc.Done?
  }

  lemma {:induction false} LiveCounts(fs: seq<Flush>)
    ensures |Unfinished(fs)| == Live(fs)
  {
    if fs != [] {
      var last := |fs| - 1;
      LiveCounts(fs[..last]);
      assert Unfinished(fs) == Unfinished(fs[..last]) + if fs[last].pc.Done? then {} else {last};
    }
  }

  /** The bounded semaphore, queue and batch hold in every run. */
  lemma BoundsHold(p: Params, s: State)
    requires p.Valid() && Reachable(p, s)
    ensures |Unfinished(s.flushes)| <= p.inflight <= 50
    ensures |s.queue| <= 4096
    ensures !s.flusher.Idle? ==> 1 <= |s.flusher.batch| <= p.max <= 1000
  {
    ReachableInv(p, s);
    LiveCounts(s.flushes);
  }

  /** The send on a response channel of capacity one never blocks: at most one answer per put. */
  lemma AnswerNeverBlocks(p: Params, s: State, f: nat)
    requires p.Valid() && Reachable(p, s) && Apply(p, s, Answer(f)).Some?
    ensures s.batches[f][s.flushes[f].pc.next].resp !in s.answers
  {
    ReachableInv(p, s);
    ChannelIsEmpty(p, s, f);
  }

  // ----- what later steps leave alone

  ghost predicate Extends(s: State, s': State) {
    && s.log <= s'.log
    && s.calls <= s'.calls
    && s.accepted <= s'.accepted
    && s.batches <= s'.batches
    && (forall f :: f in s.acks ==> f in s'.acks && s'.acks[f] == s.acks[f])
    && (forall c :: c in s.answers ==> c in s'.answers && s'.answers[c] == s.answers[c])
  }

  lemma DeliverExtends(p: Params, s: State, pkt: Packet)
    requires Inv(p, s) && pkt in s.wire
    ensures Extends(s, Deliver'(s, pkt))
  {
    assert PacketOk(s.batches, s.flushes, s.acks, pkt);
    assert !pkt.kind.Staged? ==> pkt.flush !in s.acks;
    match pkt.kind
    case Plain =>
    case Staged => assert Deliver'(s, pkt).log == s.log && Deliver'(s, pkt).acks == s.acks;
    case Commit =>
  }

  lemma FlushStepExtends(p: Params, s: State, e: Event)
    requires Inv(p, s) && Apply(p, s, e).Some?
    requires e.Publish? || e.PublishError? || e.AckArrives? || e.GiveUp? || e.Answer?
    ensures Extends(s, Apply(p, s, e).value)
  {
    if e.Answer? {
      ChannelIsEmpty(p, s, e.f);
    }
  }

  lemma StepExtends(p: Params, s: State, e: Event)
    requires Inv(p, s) && Apply(p, s, e).Some?
    ensures Extends(s, Apply(p, s, e).value)
  {
    if e.Deliver? {
      DeliverExtends(p, s, e.pkt);
    } else if e.Publish? || e.PublishError? || e.AckArrives? || e.GiveUp? || e.Answer? {
      FlushStepExtends(p, s, e);
    }
  }

  /** The log only grows, and neither an ack nor an answer is ever changed. */
  lemma {:induction false} RunExtends(p: Params, s: State, es: seq<Event>)
    requires p.Valid() && Inv(p, s) && Run(p, s, es).Some?
    ensures Extends(s, Run(p, s, es).value)
    decreases |es|
  {
    if es != [] {
      StepExtends(p, s, es[0]);
      StepKeepsInv(p, s, es[0]);
      RunExtends(p, Apply(p, s, es[0]).value, es[1..]);
    }
  }

  /** A revision handed out stays right however the run goes on. */
  lemma RevisionIsDurable(p: Params, s: State, es: seq<Event>, c: nat)
    requires p.Valid() && Reachable(p, s) && Run(p, s, es).Some?
    requires c in s.answers && s.answers[c].outcome.Revision?
    ensures var s', rev := Run(p, s, es).value, s.answers[c].outcome.rev;
            && c < |s.calls| && 1 <= rev <= |s'.log| && s'.log[rev - 1].msg == s.calls[c]
  {
    ReachableInv(p, s);
    RunExtends(p, s, es);
    SuccessfulPut(p, s, c);
  }

  /** A call's answer comes from a batch dispatched after the call was made. */
  lemma AnsweredLater(p: Params, s: State, es: seq<Event>, d: nat)
    requires p.Valid() && Inv(p, s) && Run(p, s, es).Some? && d >= |s.calls|
    requires d in Run(p, s, es).value.answers
    ensures Run(p, s, es).value.answers[d].flush >= |s.batches|
  {
    RunExtends(p, s, es);
    RunKeepsInv(p, s, es);
    var s' := Run(p, s, es).value;
    var f, j := s'.answers[d].flush, s'.answers[d].pos;
    assert ReplyOk(d, s'.answers[d], s'.batches, s'.flushes);
    if f < |s.batches| {
      assert s.batches[f] == s'.batches[f];
      BatchPosition(p, s, f, j);
    }
  }

  /** A batch dispatched later than the log was observed lies behind everything then in the log. */
  lemma DispatchedLater(p: Params, s: State, es: seq<Event>, f: nat, i: nat)
    requires p.Valid() && Inv(p, s) && Run(p, s, es).Some? && f >= |s.batches|
    requires var s' := Run(p, s, es).value; i < |s'.log| && s'.log[i].Own? && s'.log[i].flush == f
    ensures i >= |s.log|
  {
    RunExtends(p, s, es);
    forall k | 0 <= k < |s.log| && s.log[k].Own? ensures s.log[k].flush < |s.batches| {
      assert SlotOk(s.log[k], k, s.acks, s.batches);
    }
  }

  /** Real-time order: a put called after another one had returned a revision gets a larger revision. */
  lemma RealTimeOrder(p: Params, s: State, es: seq<Event>, c: nat, d: nat)
    requires p.Valid() && Reachable(p, s) && Run(p, s, es).Some?
    requires c in s.answers && s.answers[c].outcome.Revision? && d >= |s.calls|
    requires var s' := Run(p, s, es).value; d in s'.answers && s'.answers[d].outcome.Revision?
    ensures s.answers[c].outcome.rev < Run(p, s, es).value.answers[d].outcome.rev
  {
    ReachableInv(p, s);
    SuccessfulPut(p, s, c);
    ReachableRun(p, s, es);
    SuccessfulPut(p, Run(p, s, es).value, d);
    AnsweredLater(p, s, es, d);
    var r := Run(p, s, es).value.answers[d];
    DispatchedLater(p, s, es, r.flush, r.outcome.rev - 1);
  }

  lemma ReachableRun(p: Params, s: State, es: seq<Event>)
    requires Reachable(p, s) && Run(p, s, es).Some?
    ensures Reachable(p, Run(p, s, es).value)
  {
    var before :| Run(p, Init, before) == Some(s);
    RunThen(p, Init, before, es);
  }

  lemma {:induction false} RunThen(p: Params, s: State, es: seq<Event>, fs: seq<Event>)
    requires Run(p, s, es).Some?
    ensures Run(p, s, es + fs) == Run(p, Run(p, s, es).value, fs)
    decreases |es|
  {
    if es == [] {
      assert es + fs == fs;
    } else {
      assert (es + fs)[1..] == es[1..] + fs;
      RunThen(p, Apply(p, s, es[0]).value, es[1..], fs);
    }
  }

  // ----- numbering of published messages

  /** The packets flush `f` hands to the connection during a run, in order. */
  ghost function Emitted(p: Params, s: State, es: seq<Event>, f: nat): seq<Packet>
    requires Run(p, s, es).Some?
    decreases |es|
  {
    if es == [] then [] else
    var s' := Apply(p, s, es[0]).value;
    (if es[0] == Publish(f) then [PacketAt(f, s.batches[f], s.flushes[f].published)] else [])
    + Emitted(p, s', es[1..], f)
  }

  function PublishedBy(s: State, f: nat): nat {
    if f < |s.flushes| then s.flushes[f].published else 0
  }

  lemma StepPublishes(p: Params, s: State, e: Event, f: nat)
    requires Apply(p, s, e).Some? && |s.batches| == |s.flushes|
    ensures PublishedBy(Apply(p, s, e).value, f) == PublishedBy(s, f) + if e == Publish(f) then 1 else 0
  {
  }

  /** The packets of `f` numbered from..to, as its batch prescribes. */
  ghost predicate Numbered(out: seq<Packet>, s: State, f: nat, from: nat, to: nat) {
    && |out| == to - from
    && (out != [] ==> f < |s.batches| && to <= |s.batches[f]|)
    && forall k :: 0 <= k < |out| ==> out[k] == PacketAt(f, s.batches[f], from + k)
  }

  /** A flush publishes the packets of its batch in batch order, each once, starting from the first. */
  lemma {:induction false} PublishedInOrder(p: Params, s: State, es: seq<Event>, f: nat)
    requires p.Valid() && Inv(p, s) && Run(p, s, es).Some?
    ensures var s' := Run(p, s, es).value;
            Numbered(Emitted(p, s, es, f), s', f, PublishedBy(s, f), PublishedBy(s', f))
    decreases |es|
  {
    if es != [] {
      StepKeepsInv(p, s, es[0]);
      PublishedInOrder(p, Apply(p, s, es[0]).value, es[1..], f);
      PublishedStep(p, s, es, f);
    }
  }

  lemma PublishedStep(p: Params, s: State, es: seq<Event>, f: nat)
    requires p.Valid() && Inv(p, s) && Run(p, s, es).Some? && es != []
    requires var s1, s' := Apply(p, s, es[0]).value, Run(p, s, es).value;
             Inv(p, s1) && Numbered(Emitted(p, s1, es[1..], f), s', f, PublishedBy(s1, f), PublishedBy(s', f))
    ensures var s' := Run(p, s, es).value;
            Numbered(Emitted(p, s, es, f), s', f, PublishedBy(s, f), PublishedBy(s', f))
  {
    StepPublishes(p, s, es[0], f);
    var s1, s' := Apply(p, s, es[0]).value, Run(p, s, es).value;
    var rest := Emitted(p, s1, es[1..], f);
    if es[0] == Publish(f) {
      var first := PacketAt(f, s.batches[f], s.flushes[f].published);
      assert Emitted(p, s, es, f) == [first] + rest;
      BatchesStay(p, s, es);
      FirstNumbered(p, s, s', f, rest);
    } else {
      EmittedByOthers(p, s, es, f);
    }
  }

  lemma EmittedByOthers(p: Params, s: State, es: seq<Event>, f: nat)
    requires Run(p, s, es).Some? && es != [] && es[0] != Publish(f)
    ensures Emitted(p, s, es, f) == Emitted(p, Apply(p, s, es[0]).value, es[1..], f)
  {
    var rest := Emitted(p, Apply(p, s, es[0]).value, es[1..], f);
    assert [] + rest == rest;
  }

  lemma BatchesStay(p: Params, s: State, es: seq<Event>)
    requires p.Valid() && Inv(p, s) && Run(p, s, es).Some?
    ensures Inv(p, Run(p, s, es).value) && s.batches <= Run(p, s, es).value.batches
  {
    RunExtends(p, s, es);
    RunKeepsInv(p, s, es);
  }

  lemma FirstNumbered(p: Params, s: State, s': State, f: nat, rest: seq<Packet>)
    requires Inv(p, s') && Apply(p, s, Publish(f)).Some? && s.batches <= s'.batches
    requires Numbered(rest, s', f, s.flushes[f].published + 1, PublishedBy(s', f))
    ensures Numbered([PacketAt(f, s.batches[f], s.flushes[f].published)] + rest, s', f,
                     s.flushes[f].published, PublishedBy(s', f))
  {
    assert FlushOk(s'.batches[f], s'.flushes[f], f, s'.acks);
  }

  /** What one packet of a batch looks like: number k + 1; the last of several is the only commit; a lone
      message is a plain publish. */
  ghost predicate WellNumbered(pkt: Packet, f: nat, b: seq<BatchPut>, k: nat) {
    && k < |b| && pkt.msg == b[k].msg
    && pkt.flush == f && pkt.num == k + 1
    && (pkt.kind.Commit? <==> |b| >= 2 && k + 1 == |b|)
    && (pkt.kind.Plain? <==> |b| == 1)
  }

  /** From a state without flushes on, the packets of a flush are numbered 1, 2, ... without gaps and
      without repetition, up to at most the size of its batch. */
  lemma BatchNumbering(p: Params, s0: State, es: seq<Event>, s: State, f: nat)
    requires p.Valid() && Inv(p, s0) && s0.flushes == [] && Run(p, s0, es) == Some(s)
    ensures var out := Emitted(p, s0, es, f);
            && (out != [] ==> f < |s.batches| && |out| <= |s.batches[f]|)
            && forall k :: 0 <= k < |out| ==> WellNumbered(out[k], f, s.batches[f], k)
  {
    PublishedInOrder(p, s0, es, f);
    NumberedFromStart(Emitted(p, s0, es, f), s, f, PublishedBy(s, f));
  }

  lemma NumberedFromStart(out: seq<Packet>, s: State, f: nat, to: nat)
    requires Numbered(out, s, f, 0, to)
    ensures out != [] ==> f < |s.batches| && |out| <= |s.batches[f]|
    ensures forall k :: 0 <= k < |out| ==> WellNumbered(out[k], f, s.batches[f], k)
  {
    forall k | 0 <= k < |out| ensures WellNumbered(out[k], f, s.batches[f], k) {
      assert out[k] == PacketAt(f, s.batches[f], 0 + k);
    }
  }

  lemma InitInv(p: Params)
    requires p.Valid()
    ensures Inv(p, Init)
  {
  }

  // ----- an error does not mean "not written"

  /** Prolongs a run by one event. */
  lemma Then(p: Params, es: seq<Event>, s: State, e: Event) returns (es': seq<Event>, s': State)
    requires Run(p, Init, es) == Some(s) && Apply(p, s, e).Some?
    ensures es' == es + [e] && Apply(p, s, e) == Some(s') && Run(p, Init, es') == Some(s')
  {
    es', s' := es + [e], Apply(p, s, e).value;
    RunThen(p, Init, es, [e]);
    assert [e][1..] == [];
    assert Run(p, s', []) == Some(s');
  }

  /** One put, alone in its batch, published. */
  lemma LonePut(p: Params, msg: Message) returns (es: seq<Event>, s: State)
    requires p.Valid()
    ensures Run(p, Init, es) == Some(s)
    ensures s == Init.(calls := [msg], accepted := [BatchPut(0, msg)], batches := [[BatchPut(0, msg)]],
                       flushes := [Flush(1, Awaiting)], wire := {Packet(0, 1, Plain, msg)})
  {
    es, s := Then(p, [], Init, Call(msg));
    es, s := Then(p, es, s, Enqueue(0));
    es, s := Then(p, es, s, First);
    es, s := Then(p, es, s, Timer);
    es, s := Then(p, es, s, Dispatch);
    es, s := Then(p, es, s, Publish(0));
  }

  /** A lost ack: the put is answered with an error although its message is in the log. */
  lemma ErrorAfterCommit(p: Params, msg: Message) returns (es: seq<Event>, s: State)
    requires p.Valid()
    ensures Run(p, Init, es) == Some(s)
    ensures 0 in s.answers && s.answers[0].outcome == Failure
    ensures s.calls == [msg] && s.log == [Own(0, 0, msg)]
  {
    es, s := LonePut(p, msg);
    es, s := Then(p, es, s, Deliver(Packet(0, 1, Plain, msg)));
    es, s := Then(p, es, s, GiveUp(0));
    es, s := Then(p, es, s, Answer(0));
  }

  /** A second put, sealed into a batch of its own while the first one's message is still under way. */
  lemma SecondPut(p: Params, m0: Message, m1: Message) returns (es: seq<Event>, s: State)
    requires p.Valid() && p.inflight >= 2
    ensures Run(p, Init, es) == Some(s)
    ensures s == Init.(calls := [m0, m1], accepted := [BatchPut(0, m0), BatchPut(1, m1)],
                       flusher := Sealed([BatchPut(1, m1)]), batches := [[BatchPut(0, m0)]],
                       flushes := [Flush(1, Awaiting)], wire := {Packet(0, 1, Plain, m0)})
  {
    es, s := LonePut(p, m0);
    es, s := Then(p, es, s, Call(m1));
    es, s := Then(p, es, s, Enqueue(1));
    es, s := Then(p, es, s, First);
    es, s := Then(p, es, s, Timer);
  }

  /** The order of puts is kept inside a batch only: of two puts accepted one after the other, the later
      can come first in the stream when they fall into different batches. */
  lemma BatchesMayReorder(p: Params, m0: Message, m1: Message) returns (es: seq<Event>, s: State)
    requires p.Valid() && p.inflight >= 2
    ensures Run(p, Init, es) == Some(s)
    ensures s.accepted == [BatchPut(0, m0), BatchPut(1, m1)] && s.log == [Own(1, 0, m1), Own(0, 0, m0)]
  {
    es, s := SecondPut(p, m0, m1);
    assert Live(s.flushes[..0]) == 0;
    es, s := Then(p, es, s, Dispatch);
    es, s := Then(p, es, s, Publish(1));
    es, s := Then(p, es, s, Deliver(Packet(1, 1, Plain, m1)));
    es, s := Then(p, es, s, Deliver(Packet(0, 1, Plain, m0)));
  }
}
