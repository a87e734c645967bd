/**
 `kvPut`: the branch with a TTL and the branches without, and the conditional requests of
 sections 13.1.1 (If-Match) and 13.1.2 (If-None-Match) of RFC 9110.
 */
module KvPut {
  import opened Wrappers
  import opened StreamLog
  import opened Decimal

  type Positive = n: nat | n > 0 witness 1

  /** The TTL header or query parameter: absent, not a positive integer, or a number of seconds. */
  datatype Ttl = NoTtl | BadTtl | Seconds(n: Positive)

  datatype Request = Request(ttl: Ttl, ifMatch: string, ifNoneMatch: string, body: string)

  datatype Response = Written(rev: nat) | BadRequest | PreconditionFailed

  /** The answer, the source log afterwards, and the TTL carried by the appended message. */
  datatype Outcome = Outcome(resp: Response, log: Log, ttl: Option<nat>)

  /** `strconv.ParseUint(s, 10, 64)`. */
  function ParseUint64(s: string): Option<nat> {
    var n := ParseDigits(s);
    if s == [] || n.None? || n.value >= MODULUS then None else n
  }

  /** The header is the decimal text of this 64-bit number, leading zeros allowed. */
  ghost predicate NamesRevision(header: string, n: nat) {
    IsTextOf(header, n) && n < 0x1_0000_0000_0000_0000
  }

  lemma ParseUint64Meaning(s: string)
    ensures forall n: nat :: ParseUint64(s) == Some(n) <==> NamesRevision(s, n)
    ensures (exists c :: c in s && !IsDigit(c)) ==> forall n: nat :: !NamesRevision(s, n)
  {
    forall n: nat ensures ParseUint64(s) == Some(n) <==> NamesRevision(s, n) {
      if s != "" {
        ParseDigitsMeaning(s, n);
      }
    }
    ParseDigitsIff(s);
  }

  function Answer(before: Log, after: Option<Log>, ttl: Option<nat>): Outcome {
    match after
    case Some(l) => Outcome(Written(|l|), l, ttl)
    case None => Outcome(PreconditionFailed, before, None)
  }

  /** What a put does to the source log, case by case. */
  function KvPut(log: Log, key: string, r: Request): Outcome {
    var e := Entry(key, Put, r.body);
    match r.ttl
    case BadTtl => Outcome(BadRequest, log, None)
    case Seconds(n) =>
      if r.ifNoneMatch == "*" then Answer(log, PublishExpecting(log, e, Some(0)), Some(n))
      else if r.ifMatch != "" then
        match ParseUint64(r.ifMatch)
        case None => Outcome(BadRequest, log, None)
        case Some(prev) => Answer(log, PublishExpecting(log, e, Some(prev)), Some(n))
      else Answer(log, PublishExpecting(log, e, None), Some(n))
    case NoTtl =>
      if r.ifNoneMatch == "*" then Answer(log, Create(log, key, r.body), None)
      else if r.ifMatch != "" then
        match ParseUint64(r.ifMatch)
        case None => Outcome(BadRequest, log, None)
        case Some(prev) => Answer(log, Update(log, key, r.body, prev), None)
      else Answer(log, Some(log + [e]), None)
  }

  /** One bucket's source stream, as the handler drives it. */
  class Bucket {
    var log: Log

    /** The server's side of a publish: refused, or the new revision. */
    method Publish(e: Entry, expected: Option<nat>) returns (rev: Option<nat>)
      modifies this
      ensures PublishExpecting(old(log), e, expected) == if rev.Some? then Some(log) else None
      ensures rev.None? ==> log == old(log)
      ensures rev.Some? ==> rev.value == |log|
    {
      if expected.Some? && LastRev(log, e.key) != expected.value {
        return None;
      }
      log := log + [e];
      rev := Some(|log|);
    }

    /** The library's create: writes exactly when the key has no current value, and then `body` is it. */
    method CreateKey(key: string, body: string) returns (rev: Option<nat>)
      modifies this
      ensures rev.Some? <==> Get(old(log), key).NotFound?
      ensures rev.Some? ==> log == old(log) + [Entry(key, Put, body)] && Get(log, key) == Found(rev.value, body)
      ensures rev.None? ==> log == old(log)
    {
      if Get(log, key).Found? {
        return None;
      }
      LastRevAppend(log, Entry(key, Put, body), key);
      rev := Publish(Entry(key, Put, body), None);
    }

    /** `kvPut` in the handler's own order of cases; `ttl` is what the appended message carries. A 200 has made
        the body the value of this key and of no other, at the revision it reports; any other answer has written
        nothing. It writes when RFC 9110 allows it, save for the departures listed below; the TTL travels with
        what is written. */
    method Handle(key: string, r: Request) returns (resp: Response, ttl: Option<nat>)
      modifies this
      ensures Outcome(resp, log, ttl) == KvPut(old(log), key, r)
      ensures resp.Written? ==>
                && Get(log, key) == Found(resp.rev, r.body)
                && (forall k :: k != key ==> Get(log, k) == Get(old(log), k))
                && ttl == if r.ttl.Seconds? then Some(r.ttl.n) else None
      ensures !resp.Written? ==> log == old(log) && ttl == None
      ensures !r.ttl.BadTtl? ==> (resp.Written? <==> (RfcAllows(old(log), key, r) <==> !Departs(old(log), key, r)))
      ensures resp.BadRequest? <==>
                r.ttl.BadTtl? || (r.ifNoneMatch != "*" && r.ifMatch != "" && forall n: nat :: !NamesRevision(r.ifMatch, n))
      ensures r.ifNoneMatch != "*" && (exists c :: c in r.ifMatch && !IsDigit(c)) ==> resp.BadRequest?
    {
      ParseUint64Meaning(r.ifMatch);
      PutTakesEffect(log, key, r);
      if r.ttl != BadTtl {
        MeetsRfcUnlessDeparts(log, key, r);
      }
      ttl := None;
      var expected: Option<nat> := None;
      var parsed := ParseUint64(r.ifMatch);
      var rev: Option<nat>;
      if r.ttl != NoTtl {
        if r.ttl.BadTtl? {
          return BadRequest, None;
        }
        if r.ifNoneMatch == "*" {
          expected := Some(0);
        } else if r.ifMatch != "" {
          if parsed.None? {
            return BadRequest, None;
          }
          expected := parsed;
        }
        rev := Publish(Entry(key, Put, r.body), expected);
        if rev.Some? {
          ttl := Some(r.ttl.n);
        }
      } else if r.ifNoneMatch == "*" {
        rev := CreateKey(key, r.body);
      } else if r.ifMatch != "" {
        if parsed.None? {
          return BadRequest, None;
        }
        rev := Publish(Entry(key, Put, r.body), parsed);
      } else {
        rev := Publish(Entry(key, Put, r.body), None);
      }
      resp := if rev.Some? then Written(rev.value) else PreconditionFailed;
    }
  }

  ghost predicate LatestIsMarker(log: Log, key: string) {
    LastRev(log, key) > 0 && Get(log, key).NotFound?
  }

  /** The two branches give the same answer and append the same message up to its TTL, except exactly for
      If-None-Match: * on a key whose latest entry is a delete marker; there the TTL branch refuses and the
      other writes. */
  lemma TtlBranchAgrees(log: Log, key: string, r: Request, n: Positive)
    requires r.ttl == NoTtl
    ensures var plain, timed := KvPut(log, key, r), KvPut(log, key, r.(ttl := Seconds(n)));
            && (plain.resp == timed.resp && plain.log == timed.log
                <==> !(r.ifNoneMatch == "*" && LatestIsMarker(log, key)))
            && (r.ifNoneMatch == "*" && LatestIsMarker(log, key) ==>
                  plain.resp == Written(|log| + 1) && timed.resp == PreconditionFailed && timed.log == log)
            && (timed.resp.Written? ==> timed.ttl == Some(n))
  {
    if r.ifNoneMatch == "*" && Get(log, key).NotFound? {
      assert KvPut(log, key, r).log == log + [Entry(key, Put, r.body)];
    }
  }

  /** A state in which they differ: a key that was deleted. */
  lemma TtlBranchDiffers(key: string, body: string, n: Positive)
    ensures var log, r := [Entry(key, Marker, "")], Request(NoTtl, "", "*", body);
            && LatestIsMarker(log, key)
            && KvPut(log, key, r).resp == Written(2) && KvPut(log, key, r.(ttl := Seconds(n))).resp == PreconditionFailed
  {
  }

  /** Nothing is written unless the answer is 200, and a 200 makes the body the current value at the
      revision it reports. */
  lemma PutTakesEffect(log: Log, key: string, r: Request)
    ensures var o := KvPut(log, key, r);
            if o.resp.Written?
            then o.log == log + [Entry(key, Put, r.body)] && Get(o.log, key) == Found(o.resp.rev, r.body)
                 && forall k :: k != key ==> Get(o.log, k) == Get(log, k)
            else o.log == log
  {
    var e := Entry(key, Put, r.body);
    LastRevAppend(log, e, key);
    forall k | k != key ensures Get(log + [e], k) == Get(log, k) {
      LastRevAppend(log, e, k);
    }
  }

  // ----- against RFC 9110, with the revision as the entity tag

  /** The header names this revision. */
  predicate Names(header: string, rev: nat) {
    ParseUint64(header) == Some(rev)
  }

  /** Section 13.1.1: absent, or `*` with a current value, or the current value's tag. */
  predicate IfMatchHolds(current: Lookup, header: string) {
    header == "" || (current.Found? && (header == "*" || Names(header, current.rev)))
  }

  /** Section 13.1.2: absent, or `*` without a current value, or not the current value's tag. */
  predicate IfNoneMatchHolds(current: Lookup, header: string) {
    header == "" || current.NotFound? || (header != "*" && !Names(header, current.rev))
  }

  /** Section 13.2.2: both have to hold. */
  predicate RfcAllows(log: Log, key: string, r: Request) {
    IfMatchHolds(Get(log, key), r.ifMatch) && IfNoneMatchHolds(Get(log, key), r.ifNoneMatch)
  }

  // The five ways in which the handler's cases are not those of the RFC.

  /** 1. `If-None-Match: *` makes the handler ignore If-Match, which cannot hold without a current value. */
  ghost predicate IgnoresIfMatch(log: Log, key: string, r: Request) {
    r.ifNoneMatch == "*" && r.ifMatch != "" && Get(log, key).NotFound? && !(r.ttl.Seconds? && LatestIsMarker(log, key))
  }

  /** 2. With a TTL, `If-None-Match: *` refuses over a delete marker. */
  ghost predicate RefusesOverMarker(log: Log, key: string, r: Request) {
    r.ifNoneMatch == "*" && r.ifMatch == "" && r.ttl.Seconds? && LatestIsMarker(log, key)
  }

  /** 3. `If-Match: *` is not understood. */
  ghost predicate RefusesAnyMatch(log: Log, key: string, r: Request) {
    r.ifNoneMatch != "*" && r.ifMatch == "*" && Get(log, key).Found? && !Names(r.ifNoneMatch, LastRev(log, key))
  }

  /** 4. A number in If-Match is compared with the latest revision, although the key has no current value: the
      latest entry is a marker, or there is none. */
  ghost predicate MatchesAbsent(log: Log, key: string, r: Request) {
    r.ifNoneMatch != "*" && r.ifMatch != "*" && Get(log, key).NotFound? && Names(r.ifMatch, LastRev(log, key))
  }

  /** 5. If-None-Match other than `*` is ignored, although it names the current value. */
  ghost predicate IgnoresIfNoneMatch(log: Log, key: string, r: Request) {
    && r.ifNoneMatch != "*" && r.ifMatch != "*" && Get(log, key).Found? && Names(r.ifNoneMatch, LastRev(log, key))
    && (r.ifMatch == "" || Names(r.ifMatch, LastRev(log, key)))
  }

  ghost predicate Departs(log: Log, key: string, r: Request) {
    || IgnoresIfMatch(log, key, r) || RefusesOverMarker(log, key, r) || RefusesAnyMatch(log, key, r)
    || MatchesAbsent(log, key, r) || IgnoresIfNoneMatch(log, key, r)
  }

  function Holds(b: bool): nat {
    if b then 1 else 0
  }

  /** The five exclude each other. */
  lemma OneDeparture(log: Log, key: string, r: Request)
    ensures Holds(IgnoresIfMatch(log, key, r)) + Holds(RefusesOverMarker(log, key, r)) + Holds(RefusesAnyMatch(log, key, r))
            + Holds(MatchesAbsent(log, key, r)) + Holds(IgnoresIfNoneMatch(log, key, r))
            == Holds(Departs(log, key, r))
  {
  }

  /** For every combination of the two headers, with or without a TTL, and every state of the key: the handler
      writes exactly when the RFC allows it, unless one of the five departures applies. */
  lemma MeetsRfcUnlessDeparts(log: Log, key: string, r: Request)
    requires !r.ttl.BadTtl?
    ensures (KvPut(log, key, r).resp.Written? <==> RfcAllows(log, key, r)) <==> !Departs(log, key, r)
  {
    assert "*"[..0] == [] && ParseDigits("*") == None;
    assert ParseUint64("") == None;
  }

  /** The smallest departure: If-Match: 0 creates a key that was never written. */
  lemma IfMatchZeroCreates(key: string, body: string)
    ensures var r := Request(NoTtl, "0", "", body);
            !RfcAllows([], key, r) && KvPut([], key, r).resp == Written(1)
  {
    ParseFormatNat(0);
    assert FormatNat(0) == "0";
  }

  /** Read, then put with the revision that was read: the round trip through the decimal header. */
  lemma ReadThenPut(log: Log, key: string, body: string)
    requires Get(log, key).Found? && |log| < MODULUS
    ensures var header := FormatNat(Get(log, key).rev);
            KvPut(log, key, Request(NoTtl, header, "", body)) == Outcome(Written(|log| + 1), log + [Entry(key, Put, body)], None)
  {
    ParseFormatNat(Get(log, key).rev);
  }
}
