/**
 The batched write path of one bucket as a step system: callers blocked in `put`, the bounded
 queue, the one flusher, any number of flushes in flight, the network between adapter and server,
 the server's staging area and append-only stream, and foreign writers on the same stream.

 The server side is the environment. What is taken from NATS ADR-50 is the body of `Deliver`:
 a commit appends its batch contiguously when every earlier message of that batch was staged,
 and appends nothing otherwise. The network may delay, reorder and lose packets.
 */
module BatchProtocol {
  import opened Wrappers

  const QUEUE_DEPTH: nat := 4096
  const MAX_BATCH: nat := 1000
  const MAX_INFLIGHT: nat := 50
  const UINT64: nat := 0x1_0000_0000_0000_0000

  datatype Params = Params(max: nat, inflight: nat) {
    predicate Valid() {
      2 <= max <= MAX_BATCH && 1 <= inflight <= MAX_INFLIGHT
    }
  }

  datatype Message = Message(subj: string, data: Bytes)

  /** One queued write; `resp` identifies the caller's response channel. */
  datatype BatchPut = BatchPut(resp: nat, msg: Message)

  datatype Outcome = Revision(rev: nat) | Failure

  /** What a flush sent on a response channel, with the flush and position it was sent for. */
  datatype Reply = Reply(outcome: Outcome, flush: nat, pos: nat)

  datatype Flusher = Idle | Filling(batch: seq<BatchPut>) | Sealed(batch: seq<BatchPut>)

  datatype Pc = Publishing | Awaiting | Answering(ack: Option<nat>, next: nat) | Done(ack: Option<nat>)

  /** One run of `flush`: how many messages it handed to the connection, and where it stands. */
  datatype Flush = Flush(published: nat, pc: Pc)

  datatype Kind = Plain | Staged | Commit

  /** What travels to the server; `flush` is the batch id, `num` the 1-based batch sequence. */
  datatype Packet = Packet(flush: nat, num: nat, kind: Kind, msg: Message)

  /** One stream entry; an own entry remembers which message of which flush it is. */
  datatype Slot = Own(flush: nat, pos: nat, msg: Message) | Foreign(msg: Message)

  datatype State = State(
    calls: seq<Message>,            // every put so far, by response channel
    waiting: set<nat>,              // blocked on `q <-`
    accepted: seq<BatchPut>,        // everything the channel ever accepted, in order
    queue: seq<BatchPut>,
    flusher: Flusher,
    batches: seq<seq<BatchPut>>,    // dispatched batches, by flush
    flushes: seq<Flush>,
    wire: set<Packet>,
    staged: map<nat, seq<Message>>, // server: staged messages by batch id
    acks: map<nat, nat>,            // server: the sequence acknowledged for a flush
    log: seq<Slot>,                 // the stream; entry i has sequence i + 1
    answers: map<nat, Reply>)       // what was sent on each response channel

  datatype Event =
    | Call(msg: Message)
    | Enqueue(resp: nat)
    | First | Fill | Timer | Full | Dispatch
    | Publish(f: nat) | PublishError(f: nat)
    | AckArrives(f: nat) | GiveUp(f: nat)
    | Answer(f: nat)
    | Deliver(pkt: Packet) | Drop(pkt: Packet)
    | Abandon(f: nat)
    | Append(msg: Message)

  const Init := State([], {}, [], [], Idle, [], [], {}, map[], map[], [], map[])

  // ----- vocabulary

  function Holding(fl: Flusher): seq<BatchPut> {
    if fl.Idle? then [] else fl.batch
  }

  /** The k-th packet of a batch: all but the last are staged; a batch of one is a plain publish. */
  function PacketAt(f: nat, b: seq<BatchPut>, k: nat): Packet
    requires k < |b|
  {
    var kind := if |b| == 1 then Plain else if k == |b| - 1 then Commit else Staged;
    Packet(f, k + 1, kind, b[k].msg)
  }

  /** The revision reported to caller i of a batch of n, in the source's uint64 arithmetic. */
  function RevisionOf(ack: nat, n: nat, i: nat): nat {
    if n == 1 then ack else ((ack - (n - 1)) % UINT64 + i) % UINT64
  }

  function OutcomeOf(ack: Option<nat>, n: nat, i: nat): Outcome {
    match ack
    case Some(a) => Revision(RevisionOf(a, n, i))
    case None => Failure
  }

  function StagedOf(s: State, f: nat): seq<Message> {
    if f in s.staged then s.staged[f] else []
  }

  function Slots(f: nat, msgs: seq<Message>): seq<Slot> {
    seq(|msgs|, i requires 0 <= i < |msgs| => Own(f, i, msgs[i]))
  }

  /** How many callers of this flush have been answered, and with which ack. */
  function Sent(n: nat, pc: Pc): nat {
    match pc
    case Answering(_, next) => next
    case Done(_) => n
    case _ => 0
  }

  function AckOf(pc: Pc): Option<nat> {
    match pc
    case Answering(ack, _) => ack
    case Done(ack) => ack
    case _ => None
  }

  // ----- steps

  function Deliver'(s: State, pkt: Packet): State {
    var f := pkt.flush;
    var s' := s.(wire := s.wire - {pkt});
    match pkt.kind
    case Plain =>
      if |s.log| + 1 < UINT64 then
        s'.(log := s.log + Slots(f, [pkt.msg]), acks := s.acks[f := |s.log| + 1])
      else s'
    case Staged =>
      if pkt.num == |StagedOf(s, f)| + 1 then
        s'.(staged := s.staged[f := StagedOf(s, f) + [pkt.msg]])
      else s'.(staged := s.staged - {f})   // a gap: the server abandons the batch
    case Commit =>
      var msgs := StagedOf(s, f) + [pkt.msg];
      var s'' := s'.(staged := s.staged - {f});
      if pkt.num == |msgs| && |s.log| + |msgs| < UINT64 then
        s''.(log := s.log + Slots(f, msgs), acks := s.acks[f := |s.log| + |msgs|])
      else s''
  }

  function SetPc(s: State, f: nat, pc: Pc): State
    requires f < |s.flushes|
  {
    s.(flushes := s.flushes[f := s.flushes[f].(pc := pc)])
  }

  function FlushStep(s: State, e: Event): Option<State>
    requires e.Publish? || e.PublishError? || e.AckArrives? || e.GiveUp? || e.Answer?
  {
    if e.f >= |s.flushes| || e.f >= |s.batches| then None else
    var b, fl := s.batches[e.f], s.flushes[e.f];
    match e
    case Publish(f) =>
      if fl.pc.Publishing? && fl.published < |b| then
        var pc := if fl.published == |b| - 1 then Awaiting else Publishing;
        Some(s.(wire := s.wire + {PacketAt(f, b, fl.published)},
                flushes := s.flushes[f := Flush(fl.published + 1, pc)]))
      else None
    case PublishError(f) =>
      if fl.pc.Publishing? && fl.published < |b| - 1 then Some(SetPc(s, f, Answering(None, 0))) else None
    case AckArrives(f) =>
      if fl.pc.Awaiting? && f in s.acks then Some(SetPc(s, f, Answering(Some(s.acks[f]), 0))) else None
    case GiveUp(f) =>
      if fl.pc.Awaiting? then Some(SetPc(s, f, Answering(None, 0))) else None
    case Answer(f) =>
      if fl.pc.Answering? && fl.pc.next < |b| then
        var i := fl.pc.next;
        var pc := if i + 1 == |b| then Done(fl.pc.ack) else Answering(fl.pc.ack, i + 1);
        Some(SetPc(s, f, pc).(answers := s.answers[b[i].resp := Reply(OutcomeOf(fl.pc.ack, |b|, i), f, i)]))
      else None
  }

  /** One atomic step; None when the event is not enabled. */
  function Apply(p: Params, s: State, e: Event): Option<State> {
    match e
    case Call(msg) =>
      Some(s.(calls := s.calls + [msg], waiting := s.waiting + {|s.calls|}))
    case Enqueue(c) =>
      if c in s.waiting && c < |s.calls| && |s.queue| < QUEUE_DEPTH then
        var m := BatchPut(c, s.calls[c]);
        Some(s.(waiting := s.waiting - {c}, accepted := s.accepted + [m], queue := s.queue + [m]))
      else None
    case First =>
      if s.flusher.Idle? && s.queue != [] then
        Some(s.(flusher := Filling([s.queue[0]]), queue := s.queue[1..]))
      else None
    case Fill =>
      if s.flusher.Filling? && |s.flusher.batch| < p.max && s.queue != [] then
        Some(s.(flusher := Filling(s.flusher.batch + [s.queue[0]]), queue := s.queue[1..]))
      else None
    case Timer =>
      if s.flusher.Filling? && |s.flusher.batch| < p.max then
        Some(s.(flusher := Sealed(s.flusher.batch)))
      else None
    case Full =>
      if s.flusher.Filling? && |s.flusher.batch| >= p.max then
        Some(s.(flusher := Sealed(s.flusher.batch)))
      else None
    case Dispatch =>
      if s.flusher.Sealed? && Live(s.flushes) < p.inflight then
        Some(s.(flusher := Idle, batches := s.batches + [s.flusher.batch],
                flushes := s.flushes + [Flush(0, Publishing)]))
      else None
    case Deliver(pkt) =>
      if pkt in s.wire then Some(Deliver'(s, pkt)) else None
    case Drop(pkt) =>
      if pkt in s.wire then Some(s.(wire := s.wire - {pkt})) else None
    case Abandon(f) =>
      Some(s.(staged := s.staged - {f}))
    case Append(msg) =>
      if |s.log| + 1 < UINT64 then Some(s.(log := s.log + [Foreign(msg)])) else None
    case _ => FlushStep(s, e)
  }

  /** Flushes holding a semaphore slot. */
  function Live(fs: seq<Flush>): nat {
    if fs == [] then 0
    else Live(fs[..|fs| - 1]) + if fs[|fs| - 1].pc.Done? then 0 else 1
  }

  /** A run: None as soon as an event is not enabled. */
  function Run(p: Params, s: State, es: seq<Event>): Option<State>
    decreases |es|
  {
    if es == [] then Some(s)
    else
      match Apply(p, s, es[0])
      case None => None
      case Some(s') => Run(p, s', es[1..])
  }
}
