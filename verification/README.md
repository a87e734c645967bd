# Verified model of the edge key-value service

A Dafny model of the parts of the service in which many threads, machines or numbers have to agree, with
proofs about every run or every input:

* **The batched write path.** `batch_protocol.dfy` is the protocol of one bucket as a step system: blocked
  callers, the bounded queue, the flusher, concurrent flushes, packets that the network delays, reorders or
  loses, the server's staging area, the append-only stream and foreign writers on it. `batch_invariant.dfy`
  proves one inductive invariant, `batch_safety.dfy` draws from it what callers are promised,
  `batch_progress.dfy` adds a decreasing measure and freedom from deadlock, `batch_success.dfy` shows that
  without faults every put succeeds, and `batcher.dfy` has the
  adapter's own loops as methods, with every other thread free to run between any two of their steps.
* **Counters, conditional writes and mirrors on one log.** `stream_log.dfy` is a bucket as a log;
  `counter_protocol.dfy`, `counter_safety.dfy`, `counter_runs.dfy`, `counter_refusals.dfy` and `counter.dfy`
  treat the optimistic increment loop under stale reads and lost answers; `replica.dfy` lagging mirrors and compare-and-swap;
  `local_mirrors.dfy` the adapter's choice of where to read; `kv_put.dfy` the conditional put;
  `decimal.dfy` int64 wrap-around and decimal text.
* **Placement.** `matrix.dfy` is the RTT matrix and its cache, `sorting.dfy` the library sorts,
  `placement.dfy` the score of a geo against a declarative meaning, `placement_bound.dfy` the approximation
  bound of the greedy choice inside a geo, `placement_tight.dfy` when that choice is optimal and a family of
  metrics that attains the bound, `placement_pick.dfy` the grouping, the ranking and the final decision, and
  `placement_spanning.dfy` that nothing bounds it against replica sets that span geos.
* **API keys.** `key_records.dfy` and `key_protocol.dfy` are issuing, revoking and polling as a step system
  over a replicated bucket, `key_reach.dfy` says when either reaches the adapters and `key_stale.dfy` that
  revocation needs exactly that; `key_regen.dfy` has the revoke loop among everybody else's steps;
  `key_store.dfy` has the control plane's store operations and the adapter's cache.
* **Text.** `subject_match.dfy` is the wildcard matcher and the filter that overwrites its own input,
  `base64.dfy` the hand-written encoder with a decoder written from section 4 of RFC 4648.

`dafny verify dfyconfig.toml` checks everything.

## How the model is built

A protocol is a pure function `Apply` from a state and an event to the next state, `None` when the event is
not enabled, and `Run` folds it over any list of events; theorems are about every run. A method of the
program that shares state with others is a Dafny method on a class whose field is the protocol's state: it
moves by `Step` (one event of its own thread) and calls `Others` wherever another thread, the network or
the server may act. `Others` takes an arbitrary run of everybody else's events. So the methods are proved
against the same protocol the theorems are about.

### Assumptions about what is outside

* NATS ADR-50, as the source comments rely on it (internal/adapter/batch.go:15-23, 184): staged messages of
  one batch id are kept in order; a commit appends them contiguously if none is missing and nothing
  otherwise; the server may abandon a batch at any time; batch ids do not collide; a stream never reaches
  2^64 messages.
* A stream is an append-only log. A publish with an expected last revision for its key is appended exactly
  when that is the key's last revision. A replica or mirror holds a prefix of the log with the same
  revisions. The client library's create writes when the key is absent or its latest entry is a delete
  marker, in one step.
* Waiting for an ack always ends, by an ack or by an error: the event `GiveUp`.
* Hashes of newly issued API keys have not been issued before. SHA-256 is a function parameter.

### Where the code and its documentation disagree

The model follows the code.

* DECISIONS.md:77-79 announces an enumeration of replica sets and a global optimum. The code is greedy
  inside each geo. Against the best replica set of the same geo, `PlacementTight.OptimalIff` says exactly when
  that is optimal, `PlacementBound.GreedyBound` bounds it otherwise, and `PlacementTight.ThreeIsTight` shows,
  for every replica count, that the factor 3 cannot be improved. Against replica sets that span geos, which the
  announced enumeration includes and the code never considers, there is no bound:
  `PlacementSpanning.NoBoundAcrossGeos`.
* The comment at internal/adapter/server.go:715 calls the matcher NATS subject matching.
  `SubjectMatch.DiffersFromNats` says exactly when it is not, `SubjectMatch.DifferingInputs` gives two inputs.
* The product text calls the increment atomic (docs/customer-brief.md:21). A call may be refused without anybody
  writing: `CounterRefusals.ContentionWithoutWriters`. A call whose answer is lost is
  retried and may count up to five times: `CounterRuns.LostAnswerCountsTwice`, `CounterRuns.AtMostFiveTimes`.
  It counts exactly once under the condition of `CounterRuns.ExactlyOnce`.
* The put with a TTL is described as composing with If-None-Match like the put without
  (internal/adapter/server.go:545-548). After a delete it refuses where the other writes:
  `KvPut.TtlBranchAgrees`, `KvPut.TtlBranchDiffers`.
* The conditional headers are those of RFC 9110 with five departures, among them that `If-Match: 0` creates
  and that If-None-Match other than `*` is ignored: `KvPut.MeetsRfcUnlessDeparts`, `KvPut.IfMatchZeroCreates`.
* Revocation is described as live (DECISIONS.md:121). A revoked key is gone from an adapter for good exactly
  when every replica of the key bucket shows the revocation: `KeyStale.GoneIffShown`, `KeyStale.StaleReplicaRevives`.
* Regenerating a tenant's key is said to revoke all its existing keys (internal/control/handlers.go:974). With
  other steps and lagging replicas around it, it is sure to revoke exactly the active keys whose record every replica
  had when it began: `KeyRegen.RevokedIffVisible`.

## Model

| member | source | states |
|---|---|---|
| BatchInvariant.StepKeepsInv | internal/adapter/batch.go:100-188 | every atomic step of callers, flusher, flushes, network, server and foreign writers keeps the whole invariant |
| BatchInvariant.RunKeepsInv | internal/adapter/batch.go:100-188 | so does every run |
| BatchInvariant.ChannelIsEmpty | internal/adapter/batch.go:111 | a flush about to answer finds the response channel unused |
| BatchInvariant.DistinctChannels | internal/adapter/batch.go:111-112 | no response channel occurs twice among all dispatched batches |
| BatchInvariant.CommitKeepsInv | internal/adapter/batch.go:174-184 | a commit that reaches the server, whatever arrived before it, keeps log, acks and staging area consistent |
| BatchSafety.RevisionIsExact | internal/adapter/batch.go:184-187 | the uint64 expression for a caller's revision never underflows or wraps, and lies inside the stream |
| BatchSafety.SuccessfulPut | internal/adapter/batch.go:143-188 | a put that returned (rev, nil) has exactly its own subject and data at stream sequence rev |
| BatchSafety.DistinctRevisions | internal/adapter/batch.go:184-187 | distinct successful puts have distinct revisions |
| BatchSafety.RealTimeOrder | internal/adapter/batch.go:100-115 | a put called after another one had returned a revision gets a larger revision |
| BatchSafety.RevisionIsDurable | internal/adapter/batch.go:20-21 | a revision handed out stays right in every continuation of the run |
| BatchSafety.BatchIsAtomic | internal/adapter/batch.go:161-184 | the stream holds a batch entirely, contiguously and in queue order when it was acknowledged, and no message of it otherwise |
| BatchSafety.BatchAnswersAgree | internal/adapter/batch.go:144-148 | callers of one batch get all revisions or all errors; revisions only if the batch is committed, and offset by their positions |
| BatchSafety.ErrorAfterCommit | internal/adapter/batch.go:179-183 | the converse fails: a run in which a put gets an error and its message is in the stream |
| BatchSafety.BatchesMayReorder | internal/adapter/batch.go:119-120 | order is kept inside a batch and in real time only: a run in which the later of two accepted, overlapping puts comes first in the stream |
| BatchSafety.PutIsInOnePlace | internal/adapter/batch.go:100-141 | each put is at every moment in exactly one of: blocked, queue, filling batch, in flight, answered; batches, filling batch and queue concatenate to the arrival order |
| BatchSafety.AnswerNeverBlocks | internal/adapter/batch.go:111 | the send on a capacity-one response channel never blocks: a put is answered at most once |
| BatchSafety.BoundsHold | internal/adapter/batch.go:104-126 | in every run at most the configured number of flushes, and at most 50, hold a semaphore slot, the queue holds at most 4096 puts and a batch at most the configured number, and at most 1000 |
| BatchSafety.RunExtends | internal/adapter/batch.go:100-188 | no run ever changes the log's past, an ack or an answer |
| BatchSafety.PublishedInOrder | internal/adapter/batch.go:163-178 | a flush hands over the messages of its batch in batch order, each once |
| BatchSafety.BatchNumbering | internal/adapter/batch.go:161-178 | they are numbered 1, 2, ... without gaps, with the commit exactly on the last of two or more and a plain publish for a batch of one |
| BatchProgress.StepDecreases | internal/adapter/batch.go:117-187 | every adapter or network step decreases the measure |
| BatchProgress.RunIsBounded | internal/adapter/batch.go:117-187 | without new puts, no run takes more such steps than the measure of its first state |
| BatchProgress.LiveFlushMoves | internal/adapter/batch.go:143-188 | a flush that still holds a semaphore slot can always move |
| BatchProgress.StuckHasAnsweredEveryone | internal/adapter/batch.go:117-141 | no deadlock of semaphore, queue and channels: a reachable state in which nothing can move has answered every caller |
| BatchSuccess.NoErrorWithoutFault | internal/adapter/batch.go:143-188 | in a run without losses, overtaking, abandoned batches or ended waits, no caller ever gets an error |
| BatchSuccess.FlowingFlushMoves | internal/adapter/batch.go:143-188 | without faults too, an unfinished flush can move: publish, have its next message delivered, take its ack or answer |
| BatchSuccess.EveryPutSucceeds | internal/adapter/batch.go:100-188 | a fault-free run that can go no further has answered every put with the sequence at which its message is |
| Batcher.Bucket.PublishBatch | internal/adapter/batch.go:163-178 | the publish loop hands over the messages up to the first one the connection refuses, and fails the whole batch then; otherwise all of them |
| Batcher.Bucket.AwaitAck | internal/adapter/batch.go:179-183 | the wait fails exactly when it ends with an error, and otherwise has this flush's own ack, or goes on because there is none, whatever runs meanwhile |
| Batcher.Bucket.SendResults | internal/adapter/batch.go:145-147 | the answer loop serves every caller of the flush, under any interleaving |
| Batcher.Bucket.RunFlush | internal/adapter/batch.go:143-188 | `flush` fails exactly when the connection refuses a message or the wait ends with an error; otherwise, unless there is no ack yet, every caller has its own revision with its own message at it; when it fails every caller has an error |
| Batcher.Bucket.FillBatch | internal/adapter/batch.go:122-134 | one round of the fill loop seals between 1 and max puts, the next ones in arrival order, and fewer than max only when the timer fired or no put was queued |
| Batcher.Bucket.StartFlush | internal/adapter/batch.go:135-139 | the sealed batch becomes a fresh flush only while a semaphore slot is free; otherwise the flusher waits and holds it |
| Batcher.Batching.constructor | internal/adapter/batch.go:76-93 | the configured batch size, flush window and number of concurrent flushes, each with its range and default |
| Batcher.Batching.Issue | internal/adapter/batch.go:100-112 | the queue is created at most once per bucket and the call gets its own response channel |
| Batcher.Bucket.SendAndReceive | internal/adapter/batch.go:112-114 | what is received is this call's own answer; with a revision, the message is there; nothing is received only while the queue is full or the accepted put is unanswered |
| Batcher.Batching.Put | internal/adapter/batch.go:100-115 | the whole call: a revision it returns is where the bucket's stream holds this data under the tokens of `$KV`, the bucket and the key; other buckets are untouched |
| Batcher.SubjectsCollide | internal/adapter/batch.go:112 | two puts share a subject exactly when bucket and key have the same tokens in all: never for different keys of one bucket, nor for different buckets without dots |
| StreamLog.LastRevMonotone | internal/adapter/server.go:54-58 | a longer prefix never shows an earlier revision of a key, and the same one exactly when no entry for the key came between |
| Decimal.WrapAdd | internal/adapter/server.go:670 | wrapping each addition to int64 is wrapping the sum once |
| Decimal.ParseFormatInt | internal/adapter/server.go:668-671 | every int64 the counter writes is what the next reader parses |
| Decimal.ParseDigitsMeaning | internal/adapter/server.go:587 | digits parse to n exactly when they are the decimal text of n, with any number of leading zeros |
| Decimal.ParseInt64OfText | internal/adapter/server.go:668-669 | any text of a number, signed or not, reads as that number or the nearest int64 |
| Decimal.ParseInt64OfOther | internal/adapter/server.go:668-669 | any other text reads as 0: the parse error is ignored |
| CounterSafety.AcceptedIsCurrent | internal/adapter/server.go:672-678 | however stale the read, an accepted write holds the current counter value plus the caller's delta |
| CounterSafety.ReadIsBase | internal/adapter/server.go:658-669 | what any replica answers is the counter as it was at the revision it answers with |
| CounterSafety.RunKeepsInv | internal/adapter/server.go:657-687 | the invariant of any number of concurrent increment calls holds in every run |
| CounterRuns.CounterIsSum | internal/adapter/server.go:657-687 | in every run the counter is the wrapped int64 sum of the increments applied since its last delete or overwrite, on top of the number it was overwritten with |
| CounterRuns.IncrementAnswer | internal/adapter/server.go:679-684 | a 200 carries the value that was current at its revision: the previous value plus the call's delta |
| CounterRuns.AtMostFiveTimes | internal/adapter/server.go:657 | even with lost answers a call adds its delta at most five times |
| CounterRuns.ExactlyOnce | internal/adapter/server.go:657-687 | in every run, a returned call added its delta once if it answered 200 and never otherwise, exactly when none of its own put errors hid an applied write |
| CounterRuns.RefusalsAreNotApplied | internal/adapter/server.go:679-687 | a call that got an answer to each of its puts meets that condition, whatever other calls lost |
| CounterRuns.AllIncrementsCounted | internal/adapter/server.go:657-687 | no lost update: once all calls have returned and none of their put errors hid a write, the counter is the wrapped sum of the deltas of the calls that answered 200 |
| CounterRuns.UndisturbedAttemptSucceeds | internal/adapter/server.go:657-684 | an attempt that reads the current state and is not overtaken answers 200 with the current value plus its delta |
| CounterRefusals.RefusedWasOvertaken | internal/adapter/server.go:672-687 | in every run, a refused write was overtaken: an entry for the key lies beyond the prefix its read showed and before the point of the log at which it arrived |
| CounterRefusals.ContentionMeansFiveOvertakings | internal/adapter/server.go:657-688 | a call that answers contention without having lost an answer was refused, and so overtaken, in each of its five attempts |
| CounterRefusals.ContentionWithoutWriters | internal/adapter/server.go:657-688 | from every state in which the key has a value there is a run of a new call that ends in contention although nobody writes while it runs and no answer is lost: a lagging replica is enough |
| CounterRuns.LostAnswerCountsTwice | internal/adapter/server.go:685-686 | every put error is retried: a run in which one call counts twice and answers 200 |
| Counter.CounterKey.Attempt | internal/adapter/server.go:658-686 | one pass of the loop, given whether the read fails and whether the answer is lost: a failed read ends the call; an accepted write ends it with what the read showed plus the delta, at the server's revision; a refusal means that it was overtaken and, like a lost answer, leads to the next attempt, or to contention after the fifth |
| Counter.CounterKey.Incr | internal/adapter/server.go:645-688 | the retry loop, with all others interleaving: it ends on the first attempt whose read fails or whose write is accepted and answered, or on the fifth otherwise; a 200 holds the value at its revision; without lost answers the delta is counted once for a 200 and never otherwise, in any case at most five times |
| Replica.MirrorIsPrefixConsistent | internal/adapter/server.go:476-492 | a mirror's 200 is the latest put for the key in a prefix of the source; a 404 means no put there or a later delete |
| Replica.CaughtUpMirrorIsSource | internal/adapter/server.go:473-495 | a caught-up mirror answers exactly as the source |
| Replica.MirrorReadsMoveForward | internal/adapter/server.go:473-487 | successive mirror reads never go back: same revision and data, a newer revision, or a newer delete |
| Replica.OptimisticTransaction | internal/adapter/server.go:592 | after reading revision r at any lag, a put with If-Match r succeeds exactly when nothing was written to the key since, and then the value read is still current |
| Replica.RevisionsIncrease | internal/adapter/server.go:583-602 | successive successful writes have increasing revisions |
| Replica.CreateExcludesCreate | internal/adapter/server.go:583-584 | two creates of one key both succeed only with a delete in between |
| LocalMirrors.MirrorNames | internal/adapter/server.go:60-67 | the prefix and suffix tests and the two trims map a stream name to a bucket exactly when the stream serves it |
| LocalMirrors.Adapter.RefreshLocalMirrors | internal/adapter/server.go:59-72 | the rebuilt map covers exactly the buckets some current stream serves |
| LocalMirrors.Adapter.KvGet | internal/adapter/server.go:473-511 | the mirror's answer if there is a mirror and its read does not fail; otherwise the source's, as far as the replica shows it, or unavailable if that read fails too, with a missing bucket created or reported; a 200 from either is a put of that key in the source log at that revision |
| KvPut.Bucket.Handle | internal/adapter/server.go:549-602 | a 200 makes the body the value of this key only, at the reported revision and with the TTL; any other answer writes nothing; it writes when the RFC allows it save for the departures; a 400 is a malformed TTL, or an If-Match that decides and is not the decimal text of a 64-bit number |
| KvPut.Bucket.CreateKey | internal/adapter/server.go:583-584 | writes exactly when the key has no current value, and then the body is its value at the returned revision |
| KvPut.TtlBranchAgrees | internal/adapter/server.go:556-600 | the TTL branch answers and appends as the other ones exactly unless the request is If-None-Match: * and the key's latest entry is a delete marker |
| KvPut.TtlBranchDiffers | internal/adapter/server.go:556-600 | over a delete marker, for every key and TTL, the create-only put with a TTL answers 412 and writes nothing while the one without writes |
| KvPut.PutTakesEffect | internal/adapter/server.go:583-602 | a 200 makes the body the value of this key only, at the reported revision; any other answer writes nothing |
| KvPut.MeetsRfcUnlessDeparts | internal/adapter/server.go:554-592 | for every combination of If-Match, If-None-Match and TTL and every state of the key, the handler writes exactly when sections 13.1.1, 13.1.2 and 13.2.2 of RFC 9110 allow it, unless one of five departures holds |
| KvPut.OneDeparture | internal/adapter/server.go:567-592 | the five departures exclude each other: ignored If-Match, refusal over a marker, If-Match: *, If-Match on an absent value, ignored If-None-Match |
| KvPut.IfMatchZeroCreates | internal/adapter/server.go:585-592 | the smallest such case: If-Match: 0 on a key never written |
| KvPut.ReadThenPut | internal/adapter/server.go:585-602 | a revision that was read, sent back in decimal, updates exactly that value |
| SubjectMatch.Match | internal/adapter/server.go:716-734 | the index loop equals the recursive matcher on dot-separated tokens |
| SubjectMatch.JoinSplit | internal/adapter/server.go:717-718 | joining the tokens gives the subject back and no token holds a dot |
| SubjectMatch.SplitOfJoin | internal/adapter/server.go:717-718 | splitting joined dot-free tokens gives the tokens back |
| SubjectMatch.MatchMeaning | internal/adapter/server.go:716-734 | what a match means token by token, for the code's rule and for the NATS rule |
| SubjectMatch.DiffersFromNats | internal/adapter/server.go:715-734 | the code differs from the NATS rule exactly when the pattern has a `>`, the tokens before the first one match, and the subject ends there or more tokens follow it |
| SubjectMatch.DifferingInputs | internal/adapter/server.go:715-734 | `a.>` matches `a` and `>.b` matches `c`, which NATS does not accept |
| SubjectMatch.FilterMeaning | internal/adapter/server.go:701-710 | the filter keeps exactly the matching keys with their multiplicity |
| SubjectMatch.FilterOrder | internal/adapter/server.go:701-710 | and in the order in which they stood |
| SubjectMatch.FilterInPlace | internal/adapter/server.go:703-709 | overwriting the array that is being read still yields the filter of the original keys, in order |
| RttMatrix.Index | internal/placement/matrix.go:114-129 | the nested map answers with the last row for a pair, and not at all without one; SampledAt is the maximum timestamp |
| RttMatrix.Client.Get | internal/placement/matrix.go:63-136 | with other calls overlapping or not, what is returned is a faithful index of some rows and was within the TTL when the call began, is newly fetched by it, or is the cached copy of a call whose own fetch failed in transport |
| Sorting.SortSlice | internal/placement/engine.go:145-149 | a sort by a strict weak order: some sorted permutation |
| Sorting.SortRealsAscending | internal/placement/engine.go:184 | sorting RTTs leaves them ascending |
| Sorting.CountPermutation | internal/placement/engine.go:184-185 | how many RTTs are at most x does not depend on their order |
| Placement.EdgeIsLeastQuorumTime | internal/placement/engine.go:158-185 | the sorted RTT at the quorum index is the least time in which leader and q known peers have the write |
| Placement.EdgeIsMinMax | internal/placement/engine.go:158-185 | it is the minimum over sets of q known peers of the largest RTT in the set |
| Placement.SentinelSoundIffNonNegative | internal/placement/engine.go:166-195 | the -1 sentinel finds the minimum, and nothing only when there is nothing, exactly if no candidate is negative |
| Placement.Nearest | internal/placement/engine.go:144-151 | the first k of the regions sorted by effective anchor RTT |
| Placement.EdgeOf | internal/placement/engine.go:170-185 | the inner loop over peers, the sort and the index give the order statistic of the known peers |
| Placement.BestLeader | internal/placement/engine.go:166-191 | without negative RTTs: a leader is found exactly when one has enough known peers; it is then the first of those with the least write latency, and the edge is its own |
| Placement.ScoreGeo | internal/placement/engine.go:136-202 | eligible exactly when the geo is large enough and some chosen leader has enough known peers; the score is then the least write latency over the chosen leaders and the edge that of the first leader to have it; for negative RTTs, what the loop gives |
| PlacementBound.ChosenAreNearest | internal/placement/engine.go:144-151 | the chosen set is k distinct regions in anchor order, none farther than any left out |
| PlacementBound.ScoreIsLeastCost | internal/placement/engine.go:166-200 | for any matrix without negative RTTs, entries missing or not: eligible exactly when some chosen leader affords some cost; the score is the least cost any of them affords, and one does |
| PlacementBound.GreedyBound | internal/placement/engine.go:143-191 | on a metric, against every replica set and leader of the geo: at most 2 nearest-region RTTs more, at most 3 times as much, and no more when the anchor is in the geo |
| PlacementTight.SpreadExists | internal/placement/engine.go:143-191 | the metrics of the lower bound exist for every replica count k >= 2, every geo of more than k regions without the anchor and every e in (0, 1] |
| PlacementTight.ThreeIsTight | internal/placement/engine.go:143-191 | on each of them, however ties are sorted, the score is at least 3 while a set of k regions of the geo costs 1 + e |
| PlacementTight.OptimalIff | internal/placement/engine.go:143-191 | for every k >= 2 and every geo of at least k regions: the score is optimal within the geo on every metric and for every sort exactly when the anchor is in the geo or the geo has no more than k regions |
| PlacementPick.RegionsByGeo | internal/placement/geo.go:44-51 | one group per geo that occurs, in list order |
| PlacementPick.GroupsPartition | internal/placement/geo.go:44-51 | each region is in the group of its own geo and in no other |
| PlacementPick.GroupsInOrder | internal/placement/geo.go:44-51 | a group has its regions in list order |
| PlacementPick.GeoByCountry | internal/placement/geo.go:21-41 | the geo of a region is one its country code is listed under, and unknown exactly when there is none |
| PlacementPick.GroupsDistinct | internal/placement/geo.go:44-51 | a list without repetitions has groups without repetitions |
| PlacementPick.BeforeIsStrictWeakOrder | internal/placement/engine.go:102-108 | the ranking comparator is a strict weak order |
| PlacementPick.WinnerIsOrderIndependent | internal/placement/engine.go:96-115 | every map iteration order and every sort of one score per geo puts an equally good candidate first |
| PlacementPick.ScoreAll | internal/placement/engine.go:96-101 | exactly one score per geo, in any iteration order |
| PlacementPick.Rank | internal/placement/engine.go:102-120 | the winner is an eligible candidate with least write latency; an error exactly when none is eligible |
| PlacementPick.Pick | internal/placement/engine.go:57-131 | `Pick` as a whole, for the caller's anchor or us-ord if there is none: its refusals; one replica sits on the anchor; for three or five, the winner ranks first among one score per geo from that anchor, and on a metric costs at most 3 times any replica set inside one geo |
| PlacementPick.PickWithinThree | internal/placement/engine.go:95-120 | the decision costs at most 3 times any replica set inside any one geo, and no more than it if the anchor is in that geo |
| PlacementSpanning.DecisionsFollow | internal/placement/engine.go:95-120 | what no replica set inside one geo can undercut, no decision can |
| PlacementSpanning.NoBoundAcrossGeos | internal/placement/engine.go:95-120 | for every factor, every k >= 2 and any two geos of at least k regions without the anchor there is a metric on which a set spanning both costs 1 and every set inside one geo at least the factor |
| KeyRecords.KeysMeaning | internal/control/store.go:186 | the key list holds every hash with a record exactly once and no other |
| KeyRecords.ActiveMapMeaning | internal/adapter/keys.go:92-98 | the map built from a list of records holds a hash exactly when the list has an active record for it, with the tenant of the last such record |
| KeyProtocol.StepKeepsInv | internal/control/store.go:163-233 | every step of issuing, revoking (read, then write) and polling keeps the invariant |
| KeyProtocol.AcceptedWasIssued | internal/adapter/keys.go:92-104 | in every run, whatever an adapter accepts was issued, to that very tenant |
| KeyProtocol.RevokeRevokes | internal/control/store.go:226-233 | a completed revocation leaves its hash revoked, whatever replica it read and whatever was written in between |
| KeyProtocol.RevocationIsPermanent | internal/control/store.go:226-233 | no step of any run makes a revoked hash active again |
| KeyProtocol.FailuresChangeNothing | internal/adapter/keys.go:79-91 | a revocation or poll under way can fail at any moment, changes nothing for anybody then, and the adapter keeps its keys and can poll again |
| KeyReach.RevocationReachesAdapters | internal/adapter/keys.go:65-104 | once every replica shows the revocation, the first poll an adapter begins and completes drops the hash, and it stays out for good |
| KeyReach.IssuedKeyReachesAdapters | internal/adapter/keys.go:65-104 | once every replica has a key that is never revoked, an adapter that completes a poll without failed reads accepts it from then on, for its tenant |
| KeyStale.StaleReplicaRevives | internal/adapter/keys.go:65-104 | a run from the empty bucket in which an adapter drops a revoked key and takes it up again from a replica that lags |
| KeyStale.GoneIffShown | internal/adapter/keys.go:65-104 | for every issued hash and every state: no run brings the hash back after a complete poll exactly when every replica shows the revocation |
| KeyRegen.OthersAreFree | internal/control/handlers.go:975-978 | the loop hinders nobody: every run of the other steps can take place around it |
| KeyRegen.StampsOwnTenant | internal/control/handlers.go:975-978 | in any interleaving, each write of the revoke loop is a revoked record of the hash the loop is at, and of its own tenant |
| KeyRegen.RevokedIffVisible | internal/control/handlers.go:974-978 | every failure-free run of the revoke loop, among any steps of others and answered by any replicas, revokes a given active key of the tenant exactly when every replica has the key as the loop begins |
| KeyStore.ListingMeaning | internal/control/store.go:185-224 | a listing holds the latest record of every readable key of the tenant exactly once and nothing else |
| KeyStore.Store.GetKeyByHash | internal/control/store.go:173-183 | the latest record of the hash, or not found |
| KeyStore.Store.List | internal/control/store.go:185-224 | the listing loop, for one tenant or for all, skipping records that cannot be read |
| KeyStore.Store.RevokeKey | internal/control/store.go:226-233 | the record read is written back stamped; nothing is written when it cannot be read |
| KeyStore.Store.RevokeTenantKeys | internal/control/handlers.go:975-978 | the revoke loop stamps exactly the tenant's readable keys and leaves all other hashes as they are |
| KeyStore.Store.RegenKey | internal/control/handlers.go:968-1000 | the records after `regenKey`, for each way it can end |
| KeyStore.Store.RemoveTenant | internal/control/handlers.go:1021-1038 | keys are revoked before the tenant record goes, also when deleting it fails |
| KeyStore.OnlyTheNewKeyIsActive | internal/control/handlers.go:974-999 | the new key is the tenant's only active one exactly when the list came back and every active key could be revoked; other tenants' keys are as before |
| KeyStore.RevocationTimeIsOverwritten | internal/control/handlers.go:975-978 | a record's revocation time changes exactly when the list came back, the record could be read and rewritten, it is the tenant's and does not carry that time already: earlier revocation times are lost |
| KeyCache.Cache.Refresh | internal/adapter/keys.go:65-104 | the last complete answer is replaced as a whole, and only by a complete answer; the map is always the one built from it |
| KeyCache.Cache.Validate | internal/adapter/keys.go:106-116 | apart from the demo token, a credential is accepted exactly when the last complete answer holds an active record for its hash, and then for such a record's tenant |
| Base64.TableIsAlphabet | ui/nats-kv-user/src/lib.rs:424 | the program's table is table 1 of RFC 4648 |
| Base64.CutIsRegroup | ui/nats-kv-user/src/lib.rs:429-433 | cutting the 24-bit number of three bytes gives the RFC's regrouping of their bits |
| Base64.B64Encode | ui/nats-kv-user/src/lib.rs:423-450 | the loop and its two tails compute the RFC's group-by-group encoding |
| Base64.DecodeEncode | ui/nats-kv-user/src/lib.rs:423-450 | a strict decoder written from section 4 of RFC 4648 returns the input |
| Base64.DecodeEncodeWith | ui/nats-kv-user/src/lib.rs:423-450 | so for every 64-character alphabet without the padding character |
| Base64.EncodeInjective | ui/nats-kv-user/src/lib.rs:423-450 | encoding is injective |
| Base64.EncodedLength | ui/nats-kv-user/src/lib.rs:425 | the output has 4 characters for every started group of 3 bytes |
| Base64.EncodeDecode | ui/nats-kv-user/src/lib.rs:423-450 | re-encoding what any canonical padded string decodes to gives the string back |
| Base64.EncodeDecodeWith | ui/nats-kv-user/src/lib.rs:423-450 | so for every such alphabet |

## Left out

- Batcher.Batching.Put: gives no result while the caller is still blocked; that it does not stay blocked is `BatchProgress`.
- Batcher.Batching.constructor: the list of batched buckets is not parsed.
- Batcher.Bucket.FillBatch: the flush window is an event that may fire at any moment; its length is not modelled.
- Placement.ScoreGeo: works on real numbers, so the rounding of floating-point sums is not modelled, and sorts copies instead of slices.
- PlacementPick.Pick: takes the grouping function and the region list as parameters (`PlacementPick.GeoOf` is the program's one) and the outcome of the matrix fetch as an optional matrix.
- Batcher.Bucket.RunFlush: gives no result while there is neither an ack nor an error; that every flush finishes is `BatchProgress`.
- KvPut.Bucket.Handle: a publish fails only by a failed expectation here; other errors of the TTL branch, which the handler also reports as 412, say nothing about whether the message was written.
- RttMatrix.Client.Get: overlapping calls act between the look at the cache and the end of the fetch, as one step; of two refreshes the later one to finish wins.
- KeyStore.Store.RegenKey: runs alone, with a given set of hashes it cannot read, rewrite or see; its revoke loop interleaved with everything else is `KeyRegen`.
- BatchSuccess.EveryPutSucceeds: of the runs without faults; with faults a put may get an error (`BatchSafety.ErrorAfterCommit`).
- KvPut.MeetsRfcUnlessDeparts: takes the bare revision number as the entity tag and one tag per header; quoting, weak tags and lists are not modelled.
- Base64.B64Encode: shifts, masks and ors of disjoint bytes are written as multiplication, division, remainder and addition.
- Settings read from the environment: the parsing of numbers and lists.
- The inside of NATS: RAFT, elections, mirror transport, TTL expiry, history trimming, stream creation. Mirror theorems are for buckets without expiry.
- Client-library retries inside one publish, and the two-step form of its create (a conditional publish, repeated against the marker's revision).
- A bucket whose own name ends in `_mirror_<region>`: its stream is then taken for a mirror of another bucket; `LocalMirrors.Adapter.KvGet` states its link to the source log under the hypothesis that mapped streams are prefixes of their sources.
- Reads of a given revision, history and delete handlers, the default of the increment's `delta` parameter, the adapter's bucket creation: easy.
- HTTP routing, JSON, CORS, TLS, authentication headers, audit rows, log lines, notes and reasons in placement decisions.
- Invites: the claim flow writes tenant and key before it marks the invite, so one tenant per invite does not hold and is not stated.
- Suspended tenants: suspension is a flag of the tenant record that the adapter's key cache does not see.
- Region lists, region-name switches other than the geo prefixes, and everything under cmd, k8s, infra and the user interfaces except the encoder.
