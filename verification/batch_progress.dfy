/**
 Progress of the batched write path: a measure that every step of the adapter and every delivery
 decreases, and no deadlock before every caller is answered.
 */
module BatchProgress {
  import opened Wrappers
  import opened BatchProtocol
  import opened BatchInvariant
  import opened BatchSafety

  /** Steps of the adapter and of the network; new callers and the stream's other users are not among them. */
  predicate Internal(e: Event) {
    !e.Call? && !e.Append? && !e.Abandon?
  }

  /** Steps left to a flush: two per unpublished message, one wait, one answer per caller. */
  function Work(b: seq<BatchPut>, fl: Flush): int {
    match fl.pc
    case Publishing => 2 * (|b| - fl.published) + |b| + 1
    case Awaiting => |b| + 1
    case Answering(_, next) => |b| - next
    case Done(_) => 0
  }

  function TotalWork(batches: seq<seq<BatchPut>>, flushes: seq<Flush>): int {
    if flushes == [] || batches == [] then 0
    else
      var f, b := |flushes| - 1, |batches| - 1;
      TotalWork(batches[..b], flushes[..f]) + Work(batches[b], flushes[f])
  }

  /** Steps left before every call is in a dispatched batch, with what its batch will then cost. */
  function Ahead(waiting: set<nat>, queue: seq<BatchPut>, fl: Flusher): int {
    8 * |waiting| + 7 * |queue| + 5 * |Holding(fl)| + if fl.Filling? then 1 else 0
  }

  function Measure(s: State): int {
    Ahead(s.waiting, s.queue, s.flusher) + TotalWork(s.batches, s.flushes) + |s.wire|
  }

  lemma {:induction false} TotalWorkAppend(batches: seq<seq<BatchPut>>, flushes: seq<Flush>, b: seq<BatchPut>, fl: Flush)
    requires |batches| == |flushes|
    ensures TotalWork(batches + [b], flushes + [fl]) == TotalWork(batches, flushes) + Work(b, fl)
  {
    assert (batches + [b])[..|batches|] == batches && (flushes + [fl])[..|batches|] == flushes;
  }

  lemma {:induction false} TotalWorkUpdate(batches: seq<seq<BatchPut>>, flushes: seq<Flush>, f: nat, fl: Flush)
    requires f < |batches| == |flushes|
    ensures TotalWork(batches, flushes[f := fl])
            == TotalWork(batches, flushes) - Work(batches[f], flushes[f]) + Work(batches[f], fl)
  {
    var last := |flushes| - 1;
    if f < last {
      TotalWorkUpdate(batches[..last], flushes[..last], f, fl);
      assert flushes[f := fl][..last] == flushes[..last][f := fl];
    } else {
      assert flushes[f := fl][..last] == flushes[..last];
    }
  }

  lemma {:induction false} TotalWorkNonNegative(batches: seq<seq<BatchPut>>, flushes: seq<Flush>)
    requires |batches| == |flushes|
    requires forall f :: 0 <= f < |flushes| ==> Work(batches[f], flushes[f]) >= 0
    ensures TotalWork(batches, flushes) >= 0
  {
    if flushes != [] {
      TotalWorkNonNegative(batches[..|flushes| - 1], flushes[..|flushes| - 1]);
    }
  }

  lemma MeasureNonNegative(p: Params, s: State)
    requires Inv(p, s)
    ensures Measure(s) >= 0
  {
    forall f: nat | f < |s.flushes| ensures Work(s.batches[f], s.flushes[f]) >= 0 {
      assert FlushOk(s.batches[f], s.flushes[f], f, s.acks);
    }
    TotalWorkNonNegative(s.batches, s.flushes);
  }

  lemma SetGrows<T>(xs: set<T>, x: T)
    ensures |xs + {x}| <= |xs| + 1
    ensures x in xs ==> |xs - {x}| == |xs| - 1
  {
    if x in xs {
      assert xs + {x} == xs;
    }
  }

  lemma WorkDecreases(p: Params, s: State, e: Event)
    requires Inv(p, s) && Apply(p, s, e).Some?
    requires e.Publish? || e.PublishError? || e.AckArrives? || e.GiveUp? || e.Answer?
    ensures e.f < |s.flushes| == |s.batches| == |Apply(p, s, e).value.flushes|
    ensures Work(s.batches[e.f], Apply(p, s, e).value.flushes[e.f]) + (if e.Publish? then 1 else 0)
            < Work(s.batches[e.f], s.flushes[e.f])
  {
    assert FlushOk(s.batches[e.f], s.flushes[e.f], e.f, s.acks);
  }

  lemma FlushStepDecreases(p: Params, s: State, e: Event)
    requires Inv(p, s) && Apply(p, s, e).Some?
    requires e.Publish? || e.PublishError? || e.AckArrives? || e.GiveUp? || e.Answer?
    ensures Measure(Apply(p, s, e).value) < Measure(s)
  {
    FlushStepFrame(p, s, e);
    WorkDecreases(p, s, e);
    var s', f := Apply(p, s, e).value, e.f;
    TotalWorkUpdate(s.batches, s.flushes, f, s'.flushes[f]);
    if e.Publish? {
      SetGrows(s.wire, PacketAt(f, s.batches[f], s.flushes[f].published));
    }
  }

  /** A delivery touches the wire and the server only. */
  lemma DeliveryFrame(s: State, pkt: Packet)
    ensures var s' := Deliver'(s, pkt);
            && s'.wire == s.wire - {pkt} && s'.flushes == s.flushes && s'.batches == s.batches
            && s'.waiting == s.waiting && s'.queue == s.queue && s'.flusher == s.flusher
  {
  }

  /** Every internal step strictly decreases the measure. */
  lemma StepDecreases(p: Params, s: State, e: Event)
    requires p.Valid() && Inv(p, s) && Internal(e) && Apply(p, s, e).Some?
    ensures Measure(Apply(p, s, e).value) < Measure(s)
  {
    match e
    case Enqueue(c) => SetGrows(s.waiting, c);
    case Dispatch => TotalWorkAppend(s.batches, s.flushes, s.flusher.batch, Flush(0, Publishing));
    case Deliver(pkt) =>
      DeliveryFrame(s, pkt);
      SetGrows(s.wire, pkt);
    case Drop(pkt) => SetGrows(s.wire, pkt);
    case First =>
    case Fill =>
    case Timer =>
    case Full =>
    case _ => FlushStepDecreases(p, s, e);
  }

  function InternalSteps(es: seq<Event>): nat {
    if es == [] then 0 else (if Internal(es[0]) then 1 else 0) + InternalSteps(es[1..])
  }

  /** Once no new put arrives, a run takes at most Measure(s) more adapter and network steps. */
  lemma {:induction false} RunIsBounded(p: Params, s: State, es: seq<Event>)
    requires p.Valid() && Inv(p, s) && Run(p, s, es).Some?
    requires forall e :: e in es ==> !e.Call?
    ensures InternalSteps(es) <= Measure(s)
    decreases |es|
  {
    MeasureNonNegative(p, s);
    if es != [] {
      var s' := Apply(p, s, es[0]).value;
      assert es[0] in es;
      StepKeepsInv(p, s, es[0]);
      if Internal(es[0]) {
        StepDecreases(p, s, es[0]);
      } else {
        assert Measure(s') == Measure(s);   // the stream's other users and the server's timeouts
      }
      RunIsBounded(p, s', es[1..]);
    }
  }

  // ----- no deadlock

  ghost predicate Stuck(p: Params, s: State) {
    forall e :: Internal(e) ==> Apply(p, s, e).None?
  }

  lemma {:induction false} NoneLive(fs: seq<Flush>)
    requires forall f :: 0 <= f < |fs| ==> fs[f].pc.Done?
    ensures Live(fs) == 0
  {
    if fs != [] {
      NoneLive(fs[..|fs| - 1]);
    }
  }

  /** A flush that is not finished can always move: publish, stop waiting, or answer. */
  lemma LiveFlushMoves(p: Params, s: State, f: nat) returns (e: Event)
    requires Inv(p, s) && f < |s.flushes| && !s.flushes[f].pc.Done?
    ensures Internal(e) && Apply(p, s, e).Some?
  {
    assert FlushOk(s.batches[f], s.flushes[f], f, s.acks);
    match s.flushes[f].pc
    case Publishing => return Publish(f);
    case Awaiting => return GiveUp(f);
    case Answering(_, _) => return Answer(f);
  }

  lemma StuckIsIdle(p: Params, s: State)
    requires p.Valid() && Inv(p, s) && Stuck(p, s)
    ensures s.flusher.Idle? && s.queue == [] && s.waiting == {}
    ensures forall f :: 0 <= f < |s.flushes| ==> s.flushes[f].pc.Done?
  {
    forall f: nat | f < |s.flushes| ensures s.flushes[f].pc.Done? {
      if !s.flushes[f].pc.Done? {
        var e := LiveFlushMoves(p, s, f);
        assert false;
      }
    }
    NoneLive(s.flushes);
    assert Apply(p, s, Dispatch).None? && Apply(p, s, Timer).None? && Apply(p, s, Full).None?;
    assert Apply(p, s, First).None?;
    forall c: nat ensures c !in s.waiting {
      assert Apply(p, s, Enqueue(c)).None?;
    }
  }

  /** No deadlock between queue, semaphore and response channels: a reachable state in which nothing can
      move has answered every caller. */
  lemma StuckHasAnsweredEveryone(p: Params, s: State, c: nat)
    requires p.Valid() && Reachable(p, s) && Stuck(p, s) && c < |s.calls|
    ensures c in s.answers
  {
    ReachableInv(p, s);
    StuckIsIdle(p, s);
    forall f: nat, j: nat | f < |s.batches| && j < |s.batches[f]| ensures s.batches[f][j].resp in s.answers {
      assert ServedOk(s.answers, s.batches[f], s.flushes[f]);
    }
    var pl := PlaceExists(p, s, c);
  }
}
