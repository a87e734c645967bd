/**
 The other half of the story: when nothing fails, every put succeeds. In a smooth run no packet is
 lost or overtakes an earlier one of its batch, no wait is given up, and the server abandons nothing.
 */
module BatchSuccess {
  import opened Wrappers
  import opened BatchProtocol
  import opened BatchInvariant
  import opened BatchSafety
  import opened BatchProgress

  /** The event is one of a service without faults: deliveries of one batch in order, room left in the stream. */
  predicate Smooth(s: State, e: Event) {
    && !e.Drop? && !e.GiveUp? && !e.PublishError? && !e.Abandon?
    && (e.Deliver? ==> e.pkt.num == |StagedOf(s, e.pkt.flush)| + 1 && |s.log| + MAX_BATCH < UINT64)
  }

  predicate SmoothRun(p: Params, s: State, es: seq<Event>)
    decreases |es|
  {
    es == [] || (Smooth(s, es[0]) && Apply(p, s, es[0]).Some? && SmoothRun(p, Apply(p, s, es[0]).value, es[1..]))
  }

  // ----- nothing gets lost

  /** What is published of an unacknowledged batch and not staged yet is on the wire. */
  ghost predicate OnTheWay(f: nat, b: seq<BatchPut>, published: nat, staged: nat, wire: set<Packet>) {
    && staged <= published <= |b|
    && forall k: nat {:trigger PacketAt(f, b, k)} :: staged <= k < published ==> PacketAt(f, b, k) in wire
  }

  /** A flush that has stopped waiting has its ack. */
  predicate Acked(pc: Pc) {
    pc.Answering? || pc.Done? ==> AckOf(pc).Some?
  }

  ghost predicate FlushFlows(s: State, f: nat)
    requires f < |s.batches| && f < |s.flushes|
  {
    && Acked(s.flushes[f].pc)
    && (f !in s.acks ==> OnTheWay(f, s.batches[f], s.flushes[f].published, |StagedOf(s, f)|, s.wire))
  }

  ghost predicate Flowing(s: State) {
    forall f: nat {:trigger FlushFlows(s, f)} :: f < |s.batches| && f < |s.flushes| ==> FlushFlows(s, f)
  }

  lemma FlushStepFlows(p: Params, s: State, e: Event)
    requires Inv(p, s) && Flowing(s) && Smooth(s, e) && Apply(p, s, e).Some?
    requires e.Publish? || e.AckArrives? || e.Answer?
    ensures Flowing(Apply(p, s, e).value)
  {
    var s' := Apply(p, s, e).value;
    assert FlushOk(s.batches[e.f], s.flushes[e.f], e.f, s.acks);
    forall f: nat | f < |s'.batches| && f < |s'.flushes| ensures FlushFlows(s', f) {
      assert FlushFlows(s, f);
    }
  }

  lemma NotStagedYet(p: Params, s: State, f: nat)
    requires Inv(p, s)
    ensures f >= |s.batches| ==> f !in s.staged
  {
    if f in s.staged {
      assert StagedAre(s.staged[f], f, s.batches);
    }
  }

  lemma DispatchFlows(p: Params, s: State)
    requires Inv(p, s) && Flowing(s) && Apply(p, s, Dispatch).Some?
    ensures Flowing(Apply(p, s, Dispatch).value)
  {
    var s' := Apply(p, s, Dispatch).value;
    forall f: nat | f < |s'.batches| && f < |s'.flushes| ensures FlushFlows(s', f) {
      if f < |s.batches| {
        assert FlushFlows(s, f);
      } else {
        NotStagedYet(p, s, f);
      }
    }
  }

  /** The next packet of a batch is staged or commits the whole of it. */
  lemma DeliverFlows(p: Params, s: State, pkt: Packet)
    requires p.Valid() && Inv(p, s) && Flowing(s) && pkt in s.wire && Smooth(s, Deliver(pkt))
    ensures Flowing(Deliver'(s, pkt))
  {
    var s', g := Deliver'(s, pkt), pkt.flush;
    assert PacketOk(s.batches, s.flushes, s.acks, pkt);
    assert |s.batches[g]| <= p.max;
    assert g in s.staged ==> StagedAre(s.staged[g], g, s.batches);
    forall f: nat | f < |s'.batches| && f < |s'.flushes| ensures FlushFlows(s', f) {
      assert FlushFlows(s, f);
      assert f != g ==> StagedOf(s', f) == StagedOf(s, f);
    }
  }

  lemma StepFlows(p: Params, s: State, e: Event)
    requires p.Valid() && Inv(p, s) && Flowing(s) && Smooth(s, e) && Apply(p, s, e).Some?
    ensures Flowing(Apply(p, s, e).value)
  {
    var s' := Apply(p, s, e).value;
    if e.Deliver? {
      DeliverFlows(p, s, e.pkt);
    } else if e.Dispatch? {
      DispatchFlows(p, s);
    } else if e.Publish? || e.AckArrives? || e.Answer? {
      FlushStepFlows(p, s, e);
    } else {
      forall f: nat | f < |s'.batches| && f < |s'.flushes| ensures FlushFlows(s', f) {
        assert FlushFlows(s, f);
      }
    }
  }

  lemma {:induction false} RunFlows(p: Params, s: State, es: seq<Event>)
    requires p.Valid() && Inv(p, s) && Flowing(s) && SmoothRun(p, s, es)
    ensures Run(p, s, es).Some? && Inv(p, Run(p, s, es).value) && Flowing(Run(p, s, es).value)
    decreases |es|
  {
    if es != [] {
      StepKeepsInv(p, s, es[0]);
      StepFlows(p, s, es[0]);
      RunFlows(p, Apply(p, s, es[0]).value, es[1..]);
    }
  }

  // ----- and so everyone is served

  /** In a run without faults no caller ever gets an error. */
  lemma NoErrorWithoutFault(p: Params, es: seq<Event>, c: nat)
    requires p.Valid() && SmoothRun(p, Init, es)
    ensures Run(p, Init, es).Some?
    ensures var s := Run(p, Init, es).value; c in s.answers ==> s.answers[c].outcome.Revision?
  {
    InitInv(p);
    RunFlows(p, Init, es);
    var s := Run(p, Init, es).value;
    if c in s.answers {
      assert ReplyOk(c, s.answers[c], s.batches, s.flushes);
      assert FlushFlows(s, s.answers[c].flush);
    }
  }

  /** No fault-free step is left to take, other than new puts and foreign writes. */
  ghost predicate SmoothlyStuck(p: Params, s: State) {
    forall e :: Internal(e) && Smooth(s, e) ==> Apply(p, s, e).None?
  }

  /** Without faults too, a flush that is not finished can move, itself or by a delivery. */
  lemma FlowingFlushMoves(p: Params, s: State, f: nat) returns (e: Event)
    requires p.Valid() && Inv(p, s) && Flowing(s) && f < |s.flushes| && !s.flushes[f].pc.Done?
    requires |s.log| + MAX_BATCH < UINT64
    ensures Internal(e) && Smooth(s, e) && Apply(p, s, e).Some?
  {
    assert FlushOk(s.batches[f], s.flushes[f], f, s.acks);
    assert FlushFlows(s, f);
    match s.flushes[f].pc
    case Publishing => return Publish(f);
    case Answering(_, _) => return Answer(f);
    case Awaiting =>
      if f in s.acks {
        return AckArrives(f);
      }
      assert f in s.staged ==> StagedAre(s.staged[f], f, s.batches);
      var pkt := PacketAt(f, s.batches[f], |StagedOf(s, f)|);
      return Deliver(pkt);
  }

  lemma SmoothlyStuckIsIdle(p: Params, s: State)
    requires p.Valid() && Inv(p, s) && Flowing(s) && SmoothlyStuck(p, s) && |s.log| + MAX_BATCH < UINT64
    ensures s.waiting == {} && s.queue == [] && s.flusher.Idle?
    ensures forall f :: 0 <= f < |s.flushes| ==> s.flushes[f].pc.Done?
  {
    forall f: nat | f < |s.flushes| ensures s.flushes[f].pc.Done? {
      if !s.flushes[f].pc.Done? {
        var e := FlowingFlushMoves(p, s, f);
        assert false;
      }
    }
    NoneLive(s.flushes);
    assert Apply(p, s, Dispatch).None? && Apply(p, s, Timer).None? && Apply(p, s, Full).None?;
    assert Apply(p, s, First).None?;
    forall c: nat ensures c !in s.waiting {
      assert Apply(p, s, Enqueue(c)).None?;
    }
  }

  /** A fault-free run that can go no further has answered every put with the revision at which exactly its
      message is; since every step lowers the measure, such a run always gets there. */
  lemma EveryPutSucceeds(p: Params, es: seq<Event>, c: nat)
    requires p.Valid() && SmoothRun(p, Init, es)
    requires var s := Run(p, Init, es); s.Some? && SmoothlyStuck(p, s.value) && |s.value.log| + MAX_BATCH < UINT64
    requires c < |Run(p, Init, es).value.calls|
    ensures var s := Run(p, Init, es).value;
            && c in s.answers && s.answers[c].outcome.Revision?
            && 1 <= s.answers[c].outcome.rev <= |s.log|
            && s.log[s.answers[c].outcome.rev - 1].msg == s.calls[c]
  {
    InitInv(p);
    RunFlows(p, Init, es);
    var s := Run(p, Init, es).value;
    SmoothlyStuckIsIdle(p, s);
    forall f: nat, j: nat | f < |s.batches| && j < |s.batches[f]| ensures s.batches[f][j].resp in s.answers {
      assert ServedOk(s.answers, s.batches[f], s.flushes[f]);
    }
    var pl := PlaceExists(p, s, c);
    NoErrorWithoutFault(p, es, c);
    SuccessfulPut(p, s, c);
  }
}
