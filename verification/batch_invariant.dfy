/**
 The inductive invariant of the batched write path, and its preservation by every step.
 Each part of the invariant is a predicate of exactly the fields it constrains.
 */
module BatchInvariant {
  import opened Wrappers
  import opened SeqFacts
  import opened BatchProtocol

  ghost predicate Shape(p: Params, s: State) {
    && |s.queue| <= QUEUE_DEPTH
    && |s.log| < UINT64
    && (!s.flusher.Idle? ==> 1 <= |s.flusher.batch| <= p.max)
    && (forall f :: 0 <= f < |s.batches| ==> 1 <= |s.batches[f]| <= p.max)
    && Live(s.flushes) <= p.inflight
  }

  /** Accepted puts split, in order, into dispatched batches, the batch being filled, and the queue. */
  ghost predicate Partition(batches: seq<seq<BatchPut>>, held: seq<BatchPut>, queue: seq<BatchPut>, accepted: seq<BatchPut>) {
    Flatten(batches) + held + queue == accepted
  }

  /** Each call is either blocked or was accepted exactly once, with its own message. */
  ghost predicate CallsOk(calls: seq<Message>, waiting: set<nat>, accepted: seq<BatchPut>) {
    && (forall i {:trigger CallOk(calls, waiting, accepted[i])} :: 0 <= i < |accepted| ==> CallOk(calls, waiting, accepted[i]))
    && (forall i, j :: 0 <= i < j < |accepted| ==> accepted[i].resp != accepted[j].resp)
    && (forall c :: c in waiting ==> c < |calls|)
    && (forall c :: 0 <= c < |calls| && c !in waiting ==> BatchPut(c, calls[c]) in accepted)
  }

  ghost predicate CallOk(calls: seq<Message>, waiting: set<nat>, m: BatchPut) {
    m.resp < |calls| && m.msg == calls[m.resp] && m.resp !in waiting
  }

  ghost predicate FlushOk(b: seq<BatchPut>, fl: Flush, f: nat, acks: map<nat, nat>) {
    && fl.published <= |b|
    && (fl.pc.Publishing? ==> fl.published < |b|)
    && (fl.pc.Awaiting? ==> fl.published == |b|)
    && (fl.pc.Answering? ==> fl.pc.next < |b|)
    && (AckOf(fl.pc).Some? ==> f in acks && acks[f] == AckOf(fl.pc).value)
  }

  ghost predicate FlushesOk(batches: seq<seq<BatchPut>>, flushes: seq<Flush>, acks: map<nat, nat>) {
    && |flushes| == |batches|
    && (forall f: nat {:trigger FlushOk(batches[f], flushes[f], f, acks)} :: f < |batches| ==>
          FlushOk(batches[f], flushes[f], f, acks))
  }

  ghost predicate PacketOk(batches: seq<seq<BatchPut>>, flushes: seq<Flush>, acks: map<nat, nat>, pkt: Packet) {
    && pkt.flush < |batches| && pkt.flush < |flushes|
    && 1 <= pkt.num <= flushes[pkt.flush].published
    && pkt.num <= |batches[pkt.flush]|
    && pkt == PacketAt(pkt.flush, batches[pkt.flush], pkt.num - 1)
    && (pkt.num == |batches[pkt.flush]| ==> pkt.flush !in acks)
  }

  /** Everything on the wire was published by its flush; a last packet on the wire is still unacknowledged. */
  ghost predicate WireOk(wire: set<Packet>, batches: seq<seq<BatchPut>>, flushes: seq<Flush>, acks: map<nat, nat>) {
    forall pkt {:trigger PacketOk(batches, flushes, acks, pkt)} :: pkt in wire ==> PacketOk(batches, flushes, acks, pkt)
  }

  ghost predicate Placed(log: seq<Slot>, f: nat, b: seq<BatchPut>, ack: nat, i: nat) {
    |b| <= ack <= |log| && i < |b| && log[ack - |b| + i] == Own(f, i, b[i].msg)
  }

  /** Batch `b` of flush `f` occupies the |b| positions ending at sequence `ack`, in order. */
  ghost predicate Committed(log: seq<Slot>, f: nat, b: seq<BatchPut>, ack: nat) {
    && |b| <= ack <= |log|
    && forall i: nat {:trigger Placed(log, f, b, ack, i)} :: i < |b| ==> Placed(log, f, b, ack, i)
  }

  ghost predicate AckOk(f: nat, ack: nat, batches: seq<seq<BatchPut>>, flushes: seq<Flush>, log: seq<Slot>) {
    && f < |batches| && f < |flushes|
    && flushes[f].published == |batches[f]|
    && Committed(log, f, batches[f], ack)
  }

  ghost predicate AcksOk(acks: map<nat, nat>, batches: seq<seq<BatchPut>>, flushes: seq<Flush>, log: seq<Slot>) {
    forall f {:trigger AckOk(f, acks[f], batches, flushes, log)} :: f in acks ==> AckOk(f, acks[f], batches, flushes, log)
  }

  /** An own entry is exactly where its flush's ack says it is. */
  ghost predicate SlotOk(e: Slot, i: nat, acks: map<nat, nat>, batches: seq<seq<BatchPut>>) {
    e.Own? ==>
      && e.flush in acks && e.flush < |batches| && e.pos < |batches[e.flush]|
      && i == acks[e.flush] - |batches[e.flush]| + e.pos
  }

  ghost predicate LogOk(log: seq<Slot>, acks: map<nat, nat>, batches: seq<seq<BatchPut>>) {
    forall i {:trigger SlotOk(log[i], i, acks, batches)} :: 0 <= i < |log| ==> SlotOk(log[i], i, acks, batches)
  }

  ghost predicate StagedAre(msgs: seq<Message>, f: nat, batches: seq<seq<BatchPut>>) {
    && f < |batches| && 1 <= |msgs| < |batches[f]|
    && forall k :: 0 <= k < |msgs| ==> msgs[k] == batches[f][k].msg
  }

  /** The staging area holds a gap-free prefix of each batch. */
  ghost predicate StagedOk(staged: map<nat, seq<Message>>, batches: seq<seq<BatchPut>>) {
    forall f {:trigger StagedAre(staged[f], f, batches)} :: f in staged ==> StagedAre(staged[f], f, batches)
  }

  ghost predicate ReplyOk(c: nat, r: Reply, batches: seq<seq<BatchPut>>, flushes: seq<Flush>) {
    && r.flush < |batches| && r.flush < |flushes|
    && r.pos < |batches[r.flush]| && r.pos < Sent(|batches[r.flush]|, flushes[r.flush].pc)
    && batches[r.flush][r.pos].resp == c
    && r.outcome == OutcomeOf(AckOf(flushes[r.flush].pc), |batches[r.flush]|, r.pos)
  }

  ghost predicate ServedOk(answers: map<nat, Reply>, b: seq<BatchPut>, fl: Flush) {
    forall j :: 0 <= j < |b| && j < Sent(|b|, fl.pc) ==> b[j].resp in answers
  }

  /** The answered channels are exactly those of the callers a flush has already served. */
  ghost predicate AnswersOk(answers: map<nat, Reply>, batches: seq<seq<BatchPut>>, flushes: seq<Flush>) {
    && (forall c {:trigger ReplyOk(c, answers[c], batches, flushes)} :: c in answers ==> ReplyOk(c, answers[c], batches, flushes))
    && (forall f {:trigger ServedOk(answers, batches[f], flushes[f])} :: 0 <= f < |batches| && f < |flushes| ==>
          ServedOk(answers, batches[f], flushes[f]))
  }

  ghost predicate Inv(p: Params, s: State) {
    && Shape(p, s)
    && Partition(s.batches, Holding(s.flusher), s.queue, s.accepted)
    && CallsOk(s.calls, s.waiting, s.accepted)
    && FlushesOk(s.batches, s.flushes, s.acks)
    && WireOk(s.wire, s.batches, s.flushes, s.acks)
    && AcksOk(s.acks, s.batches, s.flushes, s.log)
    && LogOk(s.log, s.acks, s.batches)
    && StagedOk(s.staged, s.batches)
    && AnswersOk(s.answers, s.batches, s.flushes)
  }

  // ----- consequences used by the steps

  /** A dispatched put sits at its batch's offset inside `accepted`. */
  lemma BatchPosition(p: Params, s: State, f: nat, j: nat)
    requires Inv(p, s) && f < |s.batches| && j < |s.batches[f]|
    ensures Offset(s.batches, f) + j < |Flatten(s.batches)| <= |s.accepted|
    ensures s.accepted[Offset(s.batches, f) + j] == s.batches[f][j]
    ensures CallOk(s.calls, s.waiting, s.batches[f][j])
  {
    FlattenIndex(s.batches, f, j);
    assert s.accepted[..|Flatten(s.batches)|] == Flatten(s.batches);
    assert CallOk(s.calls, s.waiting, s.accepted[Offset(s.batches, f) + j]);
  }

  /** No response channel occurs twice among dispatched batches. */
  lemma DistinctChannels(p: Params, s: State, f: nat, j: nat, g: nat, k: nat)
    requires Inv(p, s) && f < |s.batches| && j < |s.batches[f]| && g < |s.batches| && k < |s.batches[g]|
    requires s.batches[f][j].resp == s.batches[g][k].resp
    ensures f == g && j == k
  {
    BatchPosition(p, s, f, j);
    BatchPosition(p, s, g, k);
    FlattenInjective(s.batches, f, j, g, k);
  }

  /** A response channel has capacity one; a flush never finds it occupied. */
  lemma ChannelIsEmpty(p: Params, s: State, f: nat)
    requires Inv(p, s) && Apply(p, s, Answer(f)).Some?
    ensures s.batches[f][s.flushes[f].pc.next].resp !in s.answers
  {
    var c := s.batches[f][s.flushes[f].pc.next].resp;
    if c in s.answers {
      var r := s.answers[c];
      assert ReplyOk(c, r, s.batches, s.flushes);
      DistinctChannels(p, s, f, s.flushes[f].pc.next, r.flush, r.pos);
    }
  }

  lemma {:induction false} LiveUpdate(fs: seq<Flush>, f: nat, fl: Flush)
    requires f < |fs|
    ensures Live(fs[f := fl]) ==
            Live(fs) - (if fs[f].pc.Done? then 0 else 1) + (if fl.pc.Done? then 0 else 1)
  {
    var last := |fs| - 1;
    if f < last {
      LiveUpdate(fs[..last], f, fl);
      assert fs[f := fl][..last] == fs[..last][f := fl];
    } else {
      assert fs[f := fl][..last] == fs[..last];
    }
  }

  // ----- preservation

  lemma CallKeepsInv(p: Params, s: State, msg: Message)
    requires p.Valid() && Inv(p, s)
    ensures Inv(p, Apply(p, s, Call(msg)).value)
  {
    var s' := Apply(p, s, Call(msg)).value;
    forall i | 0 <= i < |s.accepted| ensures CallOk(s'.calls, s'.waiting, s.accepted[i]) {
      assert CallOk(s.calls, s.waiting, s.accepted[i]);
    }
  }

  lemma CallsEnqueue(calls: seq<Message>, waiting: set<nat>, accepted: seq<BatchPut>, c: nat)
    requires CallsOk(calls, waiting, accepted) && c in waiting && c < |calls|
    ensures CallsOk(calls, waiting - {c}, accepted + [BatchPut(c, calls[c])])
  {
    var waiting', accepted' := waiting - {c}, accepted + [BatchPut(c, calls[c])];
    forall i | 0 <= i < |accepted'|
      ensures CallOk(calls, waiting', accepted'[i]) && (i < |accepted| ==> accepted'[i].resp != c)
    {
      assert i < |accepted| ==> CallOk(calls, waiting, accepted[i]);
    }
    forall d | 0 <= d < |calls| && d !in waiting' ensures BatchPut(d, calls[d]) in accepted' {
      assert d == c || BatchPut(d, calls[d]) in accepted;
      assert accepted'[|accepted|] == BatchPut(c, calls[c]);
    }
  }

  lemma EnqueueKeepsInv(p: Params, s: State, c: nat)
    requires p.Valid() && Inv(p, s) && Apply(p, s, Enqueue(c)).Some?
    ensures Inv(p, Apply(p, s, Enqueue(c)).value)
  {
    var s' := Apply(p, s, Enqueue(c)).value;
    CallsEnqueue(s.calls, s.waiting, s.accepted, c);
    assert Partition(s'.batches, Holding(s'.flusher), s'.queue, s'.accepted);
  }

  lemma FlusherKeepsInv(p: Params, s: State, e: Event)
    requires p.Valid() && Inv(p, s) && Apply(p, s, e).Some?
    requires e.First? || e.Fill? || e.Timer? || e.Full?
    ensures Inv(p, Apply(p, s, e).value)
  {
    var s' := Apply(p, s, e).value;
    if e.First? || e.Fill? {
      assert s.queue == [s.queue[0]] + s.queue[1..];
    }
    assert Partition(s'.batches, Holding(s'.flusher), s'.queue, s'.accepted);
  }

  // Dispatching appends a batch and a fresh flush; what was said of the others still holds.

  lemma WireDispatch(wire: set<Packet>, batches: seq<seq<BatchPut>>, flushes: seq<Flush>, acks: map<nat, nat>, b: seq<BatchPut>, fl: Flush)
    requires |batches| == |flushes| && WireOk(wire, batches, flushes, acks)
    ensures WireOk(wire, batches + [b], flushes + [fl], acks)
  {
    forall pkt | pkt in wire ensures PacketOk(batches + [b], flushes + [fl], acks, pkt) {
      assert PacketOk(batches, flushes, acks, pkt);
    }
  }

  lemma LogDispatch(log: seq<Slot>, acks: map<nat, nat>, batches: seq<seq<BatchPut>>, b: seq<BatchPut>)
    requires LogOk(log, acks, batches)
    ensures LogOk(log, acks, batches + [b])
  {
    forall i | 0 <= i < |log| ensures SlotOk(log[i], i, acks, batches + [b]) {
      assert SlotOk(log[i], i, acks, batches);
    }
  }

  lemma AnswersDispatch(answers: map<nat, Reply>, batches: seq<seq<BatchPut>>, flushes: seq<Flush>, b: seq<BatchPut>)
    requires |batches| == |flushes| && AnswersOk(answers, batches, flushes)
    ensures AnswersOk(answers, batches + [b], flushes + [Flush(0, Publishing)])
  {
    forall c | c in answers ensures ReplyOk(c, answers[c], batches + [b], flushes + [Flush(0, Publishing)]) {
      assert ReplyOk(c, answers[c], batches, flushes);
    }
  }

  lemma ServerDispatch(p: Params, s: State, b: seq<BatchPut>, fl: Flush)
    requires Inv(p, s) && FlushOk(b, fl, |s.batches|, s.acks)
    ensures FlushesOk(s.batches + [b], s.flushes + [fl], s.acks)
    ensures AcksOk(s.acks, s.batches + [b], s.flushes + [fl], s.log)
    ensures StagedOk(s.staged, s.batches + [b])
  {
    forall f: nat | f < |s.batches| + 1
      ensures FlushOk((s.batches + [b])[f], (s.flushes + [fl])[f], f, s.acks)
    {
      assert f < |s.batches| ==> FlushOk(s.batches[f], s.flushes[f], f, s.acks);
    }
    forall f | f in s.acks ensures AckOk(f, s.acks[f], s.batches + [b], s.flushes + [fl], s.log) {
      assert AckOk(f, s.acks[f], s.batches, s.flushes, s.log);
    }
    forall f | f in s.staged ensures StagedAre(s.staged[f], f, s.batches + [b]) {
      assert StagedAre(s.staged[f], f, s.batches);
    }
  }

  lemma ShapeDispatch(p: Params, s: State, b: seq<BatchPut>, fl: Flush)
    requires Shape(p, s) && 1 <= |b| <= p.max && Live(s.flushes) < p.inflight && !fl.pc.Done?
    ensures Shape(p, s.(flusher := Idle, batches := s.batches + [b], flushes := s.flushes + [fl]))
  {
    assert (s.flushes + [fl])[..|s.flushes|] == s.flushes;
  }

  lemma PartitionDispatch(batches: seq<seq<BatchPut>>, b: seq<BatchPut>, queue: seq<BatchPut>, accepted: seq<BatchPut>)
    requires Partition(batches, b, queue, accepted)
    ensures Partition(batches + [b], [], queue, accepted)
  {
    assert (batches + [b])[..|batches|] == batches;
  }

  lemma DispatchKeepsInv(p: Params, s: State)
    requires p.Valid() && Inv(p, s) && s.flusher.Sealed? && Live(s.flushes) < p.inflight
    ensures Inv(p, Apply(p, s, Dispatch).value)
  {
    var b, fl := s.flusher.batch, Flush(0, Publishing);
    ShapeDispatch(p, s, b, fl);
    PartitionDispatch(s.batches, b, s.queue, s.accepted);
    ServerDispatch(p, s, b, fl);
    WireDispatch(s.wire, s.batches, s.flushes, s.acks, b, fl);
    LogDispatch(s.log, s.acks, s.batches, b);
    AnswersDispatch(s.answers, s.batches, s.flushes, b);
  }

  // Moving one flush forward.

  lemma FlushesMove(batches: seq<seq<BatchPut>>, flushes: seq<Flush>, acks: map<nat, nat>, f: nat, fl: Flush)
    requires f < |batches| && FlushesOk(batches, flushes, acks) && FlushOk(batches[f], fl, f, acks)
    ensures FlushesOk(batches, flushes[f := fl], acks)
  {
    forall g: nat | g < |batches| ensures FlushOk(batches[g], flushes[f := fl][g], g, acks) {
      assert FlushOk(batches[g], flushes[g], g, acks);
    }
  }

  lemma WireMove(wire: set<Packet>, batches: seq<seq<BatchPut>>, flushes: seq<Flush>, acks: map<nat, nat>, f: nat, fl: Flush)
    requires f < |flushes| && WireOk(wire, batches, flushes, acks) && flushes[f].published <= fl.published
    ensures WireOk(wire, batches, flushes[f := fl], acks)
  {
    forall pkt | pkt in wire ensures PacketOk(batches, flushes[f := fl], acks, pkt) {
      assert PacketOk(batches, flushes, acks, pkt);
    }
  }

  lemma AcksMove(acks: map<nat, nat>, batches: seq<seq<BatchPut>>, flushes: seq<Flush>, log: seq<Slot>, f: nat, fl: Flush)
    requires f < |flushes| && f < |batches| && AcksOk(acks, batches, flushes, log)
    requires flushes[f].published <= fl.published <= |batches[f]|
    ensures AcksOk(acks, batches, flushes[f := fl], log)
  {
    forall g | g in acks ensures AckOk(g, acks[g], batches, flushes[f := fl], log) {
      assert AckOk(g, acks[g], batches, flushes, log);
    }
  }

  lemma AnswersMove(answers: map<nat, Reply>, batches: seq<seq<BatchPut>>, flushes: seq<Flush>, f: nat, fl: Flush)
    requires f < |flushes| == |batches| && AnswersOk(answers, batches, flushes)
    requires Sent(|batches[f]|, flushes[f].pc) == 0 == Sent(|batches[f]|, fl.pc)
    ensures AnswersOk(answers, batches, flushes[f := fl])
  {
    forall c | c in answers ensures ReplyOk(c, answers[c], batches, flushes[f := fl]) {
      assert ReplyOk(c, answers[c], batches, flushes);
    }
    forall g | 0 <= g < |batches| ensures ServedOk(answers, batches[g], flushes[f := fl][g]) {
      assert ServedOk(answers, batches[g], flushes[g]);
    }
  }

  lemma PublishingIsUnacked(p: Params, s: State, f: nat)
    requires Inv(p, s) && f < |s.batches| && s.flushes[f].published < |s.batches[f]|
    ensures f !in s.acks
  {
    assert forall g :: g in s.acks ==> AckOk(g, s.acks[g], s.batches, s.flushes, s.log);
  }

  /** What a step of a flush can touch: its own progress, the wire when it publishes, the answers when it answers. */
  lemma FlushStepFrame(p: Params, s: State, e: Event)
    requires Apply(p, s, e).Some?
    requires e.Publish? || e.PublishError? || e.AckArrives? || e.GiveUp? || e.Answer?
    ensures e.f < |s.flushes| && e.f < |s.batches|
    ensures var s', f := Apply(p, s, e).value, e.f;
            && |s'.flushes| == |s.flushes|
            && s' == s.(flushes := s.flushes[f := s'.flushes[f]], wire := s'.wire, answers := s'.answers)
            && (!e.Publish? ==> s'.wire == s.wire) && (!e.Answer? ==> s'.answers == s.answers)
            && (e.Publish? ==> s.flushes[f].published < |s.batches[f]|
                               && s'.wire == s.wire + {PacketAt(f, s.batches[f], s.flushes[f].published)})
  {
  }

  lemma FlushMoveOk(p: Params, s: State, e: Event)
    requires Inv(p, s) && Apply(p, s, e).Some?
    requires e.Publish? || e.PublishError? || e.AckArrives? || e.GiveUp?
    ensures e.f < |s.flushes| == |s.batches|
    ensures var s', f := Apply(p, s, e).value, e.f;
            && |s'.flushes| == |s.flushes|
            && FlushOk(s.batches[f], s'.flushes[f], f, s.acks)
            && s.flushes[f].published <= s'.flushes[f].published
            && Sent(|s.batches[f]|, s.flushes[f].pc) == 0 == Sent(|s.batches[f]|, s'.flushes[f].pc)
            && !s.flushes[f].pc.Done? && !s'.flushes[f].pc.Done?
            && (e.Publish? ==> s'.flushes[f].published == s.flushes[f].published + 1)
  {
    assert FlushOk(s.batches[e.f], s.flushes[e.f], e.f, s.acks);
  }

  lemma PublishKeepsWire(p: Params, s: State, f: nat, fl: Flush)
    requires Inv(p, s) && f < |s.flushes| == |s.batches| && s.flushes[f].published < |s.batches[f]|
    requires fl.published == s.flushes[f].published + 1
    ensures WireOk(s.wire + {PacketAt(f, s.batches[f], s.flushes[f].published)}, s.batches, s.flushes[f := fl], s.acks)
  {
    WireMove(s.wire, s.batches, s.flushes, s.acks, f, fl);
    PublishingIsUnacked(p, s, f);
    var pkt := PacketAt(f, s.batches[f], s.flushes[f].published);
    assert PacketOk(s.batches, s.flushes[f := fl], s.acks, pkt);
  }

  /** Steps that move one flush without answering anyone. */
  lemma FlushKeepsInv(p: Params, s: State, e: Event)
    requires p.Valid() && Inv(p, s) && Apply(p, s, e).Some?
    requires e.Publish? || e.PublishError? || e.AckArrives? || e.GiveUp?
    ensures Inv(p, Apply(p, s, e).value)
  {
    FlushStepFrame(p, s, e);
    FlushMoveOk(p, s, e);
    var s', f := Apply(p, s, e).value, e.f;
    var fl := s'.flushes[f];
    LiveUpdate(s.flushes, f, fl);
    FlushesMove(s.batches, s.flushes, s.acks, f, fl);
    AcksMove(s.acks, s.batches, s.flushes, s.log, f, fl);
    AnswersMove(s.answers, s.batches, s.flushes, f, fl);
    if e.Publish? {
      PublishKeepsWire(p, s, f, fl);
    } else {
      WireMove(s.wire, s.batches, s.flushes, s.acks, f, fl);
    }
  }

  lemma AnswersServe(answers: map<nat, Reply>, batches: seq<seq<BatchPut>>, flushes: seq<Flush>, f: nat, fl: Flush, i: nat)
    requires f < |flushes| == |batches| && AnswersOk(answers, batches, flushes)
    requires i < |batches[f]| && Sent(|batches[f]|, flushes[f].pc) == i && Sent(|batches[f]|, fl.pc) == i + 1
    requires AckOf(fl.pc) == AckOf(flushes[f].pc)
    requires batches[f][i].resp !in answers
    ensures AnswersOk(answers[batches[f][i].resp := Reply(OutcomeOf(AckOf(fl.pc), |batches[f]|, i), f, i)], batches, flushes[f := fl])
  {
    var own := batches[f][i].resp;
    var answers' := answers[own := Reply(OutcomeOf(AckOf(fl.pc), |batches[f]|, i), f, i)];
    forall c | c in answers' ensures ReplyOk(c, answers'[c], batches, flushes[f := fl]) {
      if c != own {
        assert ReplyOk(c, answers[c], batches, flushes);
      }
    }
    forall g | 0 <= g < |batches| ensures ServedOk(answers', batches[g], flushes[f := fl][g]) {
      assert ServedOk(answers, batches[g], flushes[g]);
    }
  }

  lemma AnswerKeepsInv(p: Params, s: State, f: nat)
    requires p.Valid() && Inv(p, s) && Apply(p, s, Answer(f)).Some?
    ensures Inv(p, Apply(p, s, Answer(f)).value)
  {
    var s' := Apply(p, s, Answer(f)).value;
    var fl := s'.flushes[f];
    assert FlushOk(s.batches[f], s.flushes[f], f, s.acks);
    assert s'.flushes == s.flushes[f := fl];
    ChannelIsEmpty(p, s, f);
    LiveUpdate(s.flushes, f, fl);
    FlushesMove(s.batches, s.flushes, s.acks, f, fl);
    WireMove(s.wire, s.batches, s.flushes, s.acks, f, fl);
    AcksMove(s.acks, s.batches, s.flushes, s.log, f, fl);
    AnswersServe(s.answers, s.batches, s.flushes, f, fl, s.flushes[f].pc.next);
  }

  /** Appending the slots of a batch right after the log commits it there. */
  lemma SlotsCommit(log: seq<Slot>, f: nat, b: seq<BatchPut>, msgs: seq<Message>)
    requires |msgs| == |b| && forall k :: 0 <= k < |b| ==> msgs[k] == b[k].msg
    ensures Committed(log + Slots(f, msgs), f, b, |log| + |msgs|)
  {
  }

  lemma CommittedExtends(log: seq<Slot>, log': seq<Slot>, f: nat, b: seq<BatchPut>, ack: nat)
    requires Committed(log, f, b, ack) && log <= log'
    ensures Committed(log', f, b, ack)
  {
    forall i: nat | i < |b| ensures Placed(log', f, b, ack, i) {
      assert Placed(log, f, b, ack, i);
    }
  }

  lemma AcksExtend(acks: map<nat, nat>, batches: seq<seq<BatchPut>>, flushes: seq<Flush>, log: seq<Slot>, log': seq<Slot>)
    requires AcksOk(acks, batches, flushes, log) && log <= log'
    ensures AcksOk(acks, batches, flushes, log')
  {
    forall f | f in acks ensures AckOk(f, acks[f], batches, flushes, log') {
      assert AckOk(f, acks[f], batches, flushes, log);
      CommittedExtends(log, log', f, batches[f], acks[f]);
    }
  }

  /** Consuming a packet; a consumed last packet lets its flush be acknowledged. */
  lemma WireConsume(wire: set<Packet>, batches: seq<seq<BatchPut>>, flushes: seq<Flush>, acks: map<nat, nat>, pkt: Packet, ack: nat)
    requires pkt in wire && WireOk(wire, batches, flushes, acks)
    ensures PacketOk(batches, flushes, acks, pkt)
    ensures WireOk(wire - {pkt}, batches, flushes, acks)
    ensures pkt.num == |batches[pkt.flush]| ==> WireOk(wire - {pkt}, batches, flushes, acks[pkt.flush := ack])
  {
    assert PacketOk(batches, flushes, acks, pkt);
    forall q | q in wire - {pkt} && pkt.num == |batches[pkt.flush]|
      ensures PacketOk(batches, flushes, acks[pkt.flush := ack], q)
    {
      assert PacketOk(batches, flushes, acks, q);
    }
  }

  lemma AcksAppend(acks: map<nat, nat>, batches: seq<seq<BatchPut>>, flushes: seq<Flush>, log: seq<Slot>, f: nat, msgs: seq<Message>)
    requires AcksOk(acks, batches, flushes, log) && f < |batches| && f < |flushes|
    requires flushes[f].published == |batches[f]|
    requires |msgs| == |batches[f]| && forall k :: 0 <= k < |msgs| ==> msgs[k] == batches[f][k].msg
    ensures AcksOk(acks[f := |log| + |msgs|], batches, flushes, log + Slots(f, msgs))
  {
    SlotsCommit(log, f, batches[f], msgs);
    AcksExtend(acks, batches, flushes, log, log + Slots(f, msgs));
    var acks' := acks[f := |log| + |msgs|];
    forall g | g in acks' ensures AckOk(g, acks'[g], batches, flushes, log + Slots(f, msgs)) {
      assert g != f ==> AckOk(g, acks[g], batches, flushes, log + Slots(f, msgs));
    }
  }

  lemma LogAppend(log: seq<Slot>, acks: map<nat, nat>, batches: seq<seq<BatchPut>>, f: nat, msgs: seq<Message>)
    requires LogOk(log, acks, batches) && f < |batches| && f !in acks && |msgs| == |batches[f]|
    ensures LogOk(log + Slots(f, msgs), acks[f := |log| + |msgs|], batches)
  {
    var log', acks' := log + Slots(f, msgs), acks[f := |log| + |msgs|];
    forall i | 0 <= i < |log'| ensures SlotOk(log'[i], i, acks', batches) {
      if i < |log| {
        assert SlotOk(log[i], i, acks, batches);
      }
    }
  }

  lemma FlushesAck(batches: seq<seq<BatchPut>>, flushes: seq<Flush>, acks: map<nat, nat>, f: nat, ack: nat)
    requires FlushesOk(batches, flushes, acks) && f !in acks
    ensures FlushesOk(batches, flushes, acks[f := ack])
  {
    forall g: nat | g < |batches| ensures FlushOk(batches[g], flushes[g], g, acks[f := ack]) {
      assert FlushOk(batches[g], flushes[g], g, acks);
    }
  }

  /** The server has just committed all of `msgs` for flush `f`. */
  lemma AppendKeepsInv(p: Params, s: State, f: nat, msgs: seq<Message>, wire: set<Packet>, staged: map<nat, seq<Message>>)
    requires Inv(p, s) && f < |s.batches| && f !in s.acks && s.flushes[f].published == |s.batches[f]|
    requires |msgs| == |s.batches[f]| && forall k :: 0 <= k < |msgs| ==> msgs[k] == s.batches[f][k].msg
    requires |s.log| + |msgs| < UINT64
    requires WireOk(wire, s.batches, s.flushes, s.acks[f := |s.log| + |msgs|]) && StagedOk(staged, s.batches)
    ensures Inv(p, s.(log := s.log + Slots(f, msgs), acks := s.acks[f := |s.log| + |msgs|], wire := wire, staged := staged))
  {
    AcksAppend(s.acks, s.batches, s.flushes, s.log, f, msgs);
    LogAppend(s.log, s.acks, s.batches, f, msgs);
    FlushesAck(s.batches, s.flushes, s.acks, f, |s.log| + |msgs|);
  }

  lemma PlainKeepsInv(p: Params, s: State, pkt: Packet)
    requires p.Valid() && Inv(p, s) && pkt in s.wire && pkt.kind.Plain?
    ensures Inv(p, Deliver'(s, pkt))
  {
    WireConsume(s.wire, s.batches, s.flushes, s.acks, pkt, |s.log| + 1);
    assert FlushOk(s.batches[pkt.flush], s.flushes[pkt.flush], pkt.flush, s.acks);
    if |s.log| + 1 < UINT64 {
      AppendKeepsInv(p, s, pkt.flush, [pkt.msg], s.wire - {pkt}, s.staged);
    }
  }

  lemma StagedAdd(staged: map<nat, seq<Message>>, batches: seq<seq<BatchPut>>, f: nat, msgs: seq<Message>)
    requires StagedOk(staged, batches) && StagedAre(msgs, f, batches)
    ensures StagedOk(staged[f := msgs], batches)
  {
    var staged' := staged[f := msgs];
    forall g | g in staged' ensures StagedAre(staged'[g], g, batches) {
      assert g != f ==> StagedAre(staged[g], g, batches);
    }
  }

  lemma CommitKeepsInv(p: Params, s: State, pkt: Packet)
    requires p.Valid() && Inv(p, s) && pkt in s.wire && pkt.kind.Commit?
    ensures Inv(p, Deliver'(s, pkt))
  {
    var f, msgs := pkt.flush, StagedOf(s, pkt.flush) + [pkt.msg];
    WireConsume(s.wire, s.batches, s.flushes, s.acks, pkt, |s.log| + |msgs|);
    assert FlushOk(s.batches[f], s.flushes[f], f, s.acks);
    assert f in s.staged ==> StagedAre(s.staged[f], f, s.batches);
    if pkt.num == |msgs| && |s.log| + |msgs| < UINT64 {
      AppendKeepsInv(p, s, f, msgs, s.wire - {pkt}, s.staged - {f});
    }
  }

  lemma StagedKeepsInv(p: Params, s: State, pkt: Packet)
    requires p.Valid() && Inv(p, s) && pkt in s.wire && pkt.kind.Staged?
    ensures Inv(p, Deliver'(s, pkt))
  {
    var f, msgs := pkt.flush, StagedOf(s, pkt.flush) + [pkt.msg];
    WireConsume(s.wire, s.batches, s.flushes, s.acks, pkt, 0);
    if pkt.num == |msgs| {
      assert f in s.staged ==> StagedAre(s.staged[f], f, s.batches);
      StagedAdd(s.staged, s.batches, f, msgs);
    }
  }

  /** A lost packet, an abandoned batch, a foreign write. */
  lemma EnvironmentKeepsInv(p: Params, s: State, e: Event)
    requires p.Valid() && Inv(p, s) && Apply(p, s, e).Some? && (e.Drop? || e.Abandon? || e.Append?)
    ensures Inv(p, Apply(p, s, e).value)
  {
    if e.Drop? {
      WireConsume(s.wire, s.batches, s.flushes, s.acks, e.pkt, 0);
    } else if !e.Abandon? {
      var log' := s.log + [Foreign(e.msg)];
      AcksExtend(s.acks, s.batches, s.flushes, s.log, log');
      forall i | 0 <= i < |log'| ensures SlotOk(log'[i], i, s.acks, s.batches) {
        assert i < |s.log| ==> SlotOk(s.log[i], i, s.acks, s.batches);
      }
    }
  }

  lemma StepKeepsInv(p: Params, s: State, e: Event)
    requires p.Valid() && Inv(p, s) && Apply(p, s, e).Some?
    ensures Inv(p, Apply(p, s, e).value)
  {
    match e
    case Call(msg) => CallKeepsInv(p, s, msg);
    case Enqueue(c) => EnqueueKeepsInv(p, s, c);
    case First => FlusherKeepsInv(p, s, e);
    case Fill => FlusherKeepsInv(p, s, e);
    case Timer => FlusherKeepsInv(p, s, e);
    case Full => FlusherKeepsInv(p, s, e);
    case Dispatch => DispatchKeepsInv(p, s);
    case Publish(_) => FlushKeepsInv(p, s, e);
    case PublishError(_) => FlushKeepsInv(p, s, e);
    case AckArrives(_) => FlushKeepsInv(p, s, e);
    case GiveUp(_) => FlushKeepsInv(p, s, e);
    case Answer(f) => AnswerKeepsInv(p, s, f);
    case Deliver(pkt) =>
      match pkt.kind {
        case Plain => PlainKeepsInv(p, s, pkt);
        case Staged => StagedKeepsInv(p, s, pkt);
        case Commit => CommitKeepsInv(p, s, pkt);
      }
    case Drop(_) => EnvironmentKeepsInv(p, s, e);
    case Abandon(_) => EnvironmentKeepsInv(p, s, e);
    case Append(_) => EnvironmentKeepsInv(p, s, e);
  }

  /** Every state of every run, from the empty system on, satisfies the invariant. */
  lemma {:induction false} RunKeepsInv(p: Params, s: State, es: seq<Event>)
    requires p.Valid() && Inv(p, s) && Run(p, s, es).Some?
    ensures Inv(p, Run(p, s, es).value)
    decreases |es|
  {
    if es != [] {
      StepKeepsInv(p, s, es[0]);
      RunKeepsInv(p, Apply(p, s, es[0]).value, es[1..]);
    }
  }
}
