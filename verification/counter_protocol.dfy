/**
 `kvIncr` as a step system: any number of concurrent increment calls on one counter key, each an
 optimistic loop of at most five attempts, on a bucket where the counter key is also deleted and
 overwritten with any text, and where other keys are written. A read may be served by any replica, so it sees any prefix of the log.
 A write travels to the server, is applied or rejected there, and its answer may be lost or
 come too late.
 */
module CounterProtocol {
  import opened Wrappers
  import opened StreamLog
  import opened Decimal

  const ATTEMPTS: nat := 5

  datatype Response = Applied(value: int, rev: nat) | Contention | ReadFailed

  datatype Pc =
    | Reading
    | Sending(next: int, rev: nat)
    | Waiting(next: int, rev: nat)
    | Returned(resp: Response)

  datatype Caller = Caller(delta: int, attempt: nat, pc: Pc)

  /** A create (expected 0) or an update on its way to the server. */
  datatype Request = Request(expected: nat, next: int)

  /** Which attempt of which caller appended a log entry. */
  datatype Author = By(caller: nat, attempt: nat, delta: int) | Other

  datatype State = State(
    log: Log,
    authors: seq<Author>,                         // one per log entry
    callers: seq<Caller>,
    wire: map<(nat, nat), Request>,               // by (caller, attempt)
    results: map<(nat, nat), Option<nat>>)        // the server's verdict: the new revision, or rejected

  datatype Event =
    | Start(delta: int)
    | Read(c: nat, upTo: nat) | ReadError(c: nat)
    | Send(c: nat)
    | Reply(c: nat) | GiveUp(c: nat)
    | Deliver(c: nat, attempt: nat) | Lose(c: nat, attempt: nat)
    | OtherKey(e: Entry) | Delete | Overwrite(data: string)

  const Init := State([], [], [], map[], map[])

  function SetPc(s: State, c: nat, pc: Pc): State
    requires c < |s.callers|
  {
    s.(callers := s.callers[c := s.callers[c].(pc := pc)])
  }

  /** A failed put: the next attempt, or the conflict answer after the last one. */
  function Retry(s: State, c: nat): State
    requires c < |s.callers|
  {
    var a := s.callers[c].attempt + 1;
    s.(callers := s.callers[c := s.callers[c].(attempt := a, pc := if a < ATTEMPTS then Reading else Returned(Contention))])
  }

  /** The value and revision the loop body works with after its read. */
  function Observed(log: Log, key: string): (int, nat) {
    match Get(log, key)
    case NotFound => (0, 0)
    case Found(rev, data) => (ParseInt64(data), rev)
  }

  /** The server receives a create or an update. */
  function Receive(key: string, s: State, id: (nat, nat), delta: int): State
    requires id in s.wire
  {
    var req := s.wire[id];
    var data := FormatInt(req.next);
    var log' := if req.expected == 0 then Create(s.log, key, data) else Update(s.log, key, data, req.expected);
    var s' := s.(wire := s.wire - {id});
    match log'
    case None => s'.(results := s.results[id := None])
    case Some(l) => s'.(log := l, authors := s.authors + [By(id.0, id.1, delta)], results := s.results[id := Some(|l|)])
  }

  function Apply(key: string, s: State, e: Event): Option<State> {
    match e
    case Start(delta) =>
      if IsInt64(delta) then Some(s.(callers := s.callers + [Caller(delta, 0, Reading)])) else None
    case Read(c, upTo) =>
      if c < |s.callers| && s.callers[c].pc.Reading? && upTo <= |s.log| then
        var (current, rev) := Observed(s.log[..upTo], key);
        Some(SetPc(s, c, Sending(Wrap64(current + s.callers[c].delta), rev)))
      else None
    case ReadError(c) =>
      if c < |s.callers| && s.callers[c].pc.Reading? then Some(SetPc(s, c, Returned(ReadFailed))) else None
    case Send(c) =>
      if c < |s.callers| && s.callers[c].pc.Sending? then
        var pc := s.callers[c].pc;
        Some(SetPc(s, c, Waiting(pc.next, pc.rev)).(wire := s.wire[(c, s.callers[c].attempt) := Request(pc.rev, pc.next)]))
      else None
    case Reply(c) =>
      if c < |s.callers| && s.callers[c].pc.Waiting? && (c, s.callers[c].attempt) in s.results then
        match s.results[(c, s.callers[c].attempt)]
        case Some(rev) => Some(SetPc(s, c, Returned(Applied(s.callers[c].pc.next, rev))))
        case None => Some(Retry(s, c))
      else None
    case GiveUp(c) =>
      if c < |s.callers| && s.callers[c].pc.Waiting? then Some(Retry(s, c)) else None
    case Deliver(c, a) =>
      if (c, a) in s.wire && c < |s.callers| then Some(Receive(key, s, (c, a), s.callers[c].delta)) else None
    case Lose(c, a) =>
      if (c, a) in s.wire then Some(s.(wire := s.wire - {(c, a)})) else None
    case OtherKey(e) =>
      if e.key != key then Some(s.(log := s.log + [e], authors := s.authors + [Other])) else None
    case Delete =>
      Some(s.(log := s.log + [Entry(key, Marker, "")], authors := s.authors + [Other]))
    case Overwrite(data) =>
      Some(s.(log := s.log + [Entry(key, Put, data)], authors := s.authors + [Other]))
  }

  function Run(key: string, s: State, es: seq<Event>): Option<State>
    decreases |es|
  {
    if es == [] then Some(s)
    else
      match Apply(key, s, es[0])
      case None => None
      case Some(s') => Run(key, s', es[1..])
  }

  // ----- what the counter should be

  /** The plain sum of the increments in the first n entries since the key was last deleted or overwritten, on
      top of the number that was written, which is 0 for a text that is none. */
  function Sum(key: string, log: Log, authors: seq<Author>, n: nat): int
    requires n <= |log| == |authors|
  {
    if n == 0 then 0
    else if log[n - 1].key != key then Sum(key, log, authors, n - 1)
    else if log[n - 1].op.Marker? then 0
    else if authors[n - 1].Other? then ParseInt64(log[n - 1].data)
    else Sum(key, log, authors, n - 1) + authors[n - 1].delta
  }

  /** How often caller c's increment is in the log. */
  function Count(authors: seq<Author>, c: nat): nat {
    if authors == [] then 0
    else Count(authors[..|authors| - 1], c)
         + if authors[|authors| - 1].By? && authors[|authors| - 1].caller == c then 1 else 0
  }
}
