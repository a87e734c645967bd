/** The adapter's choice between its local mirror and the source: `refreshLocalMirrors` and `kvGet`. */
module LocalMirrors {
  import opened StreamLog

  const STREAM_PREFIX: string := "KV_"

  function Suffix(region: string): string {
    "_mirror_" + region
  }

  predicate HasSuffix(s: string, suffix: string) {
    |suffix| <= |s| && s[|s| - |suffix|..] == suffix
  }

  function TrimSuffix(s: string, suffix: string): string {
    if HasSuffix(s, suffix) then s[..|s| - |suffix|] else s
  }

  predicate IsMirrorName(name: string, region: string) {
    STREAM_PREFIX <= name && HasSuffix(name, Suffix(region))
  }

  /** The bucket a stream name is taken to mirror. */
  function BucketOf(name: string, region: string): string
    requires STREAM_PREFIX <= name
  {
    TrimSuffix(name[|STREAM_PREFIX|..], Suffix(region))
  }

  /** The stream is named as the mirror of `bucket`, or prefix and suffix share their underscore: then it is
      the source stream of the bucket "mirror_<region>" itself. */
  predicate Serves(name: string, bucket: string, region: string) {
    || name == "KV_" + bucket + "_mirror_" + region
    || (name == "KV_" + bucket && bucket == "mirror_" + region)
  }

  predicate HasParts(name: string, bucket: string, suffix: string)
    requires suffix != ""
  {
    name == STREAM_PREFIX + bucket + suffix || (name == STREAM_PREFIX + bucket && bucket == suffix[1..])
  }

  lemma ServesByParts(name: string, bucket: string, region: string)
    ensures Serves(name, bucket, region) <==> HasParts(name, bucket, Suffix(region))
  {
    var front := "KV_" + bucket;
    assert front + "_mirror_" + region == front + ("_mirror_" + region);
    assert ("_mirror_" + region)[1..] == "mirror_" + region;
  }

  lemma PartsAreServed(name: string, bucket: string, region: string)
    requires HasParts(name, bucket, Suffix(region))
    ensures IsMirrorName(name, region) && BucketOf(name, region) == bucket
  {
    var suffix := Suffix(region);
    if name == STREAM_PREFIX + bucket + suffix {
      assert name[3..] == bucket + suffix;
      assert HasSuffix(name, suffix) && HasSuffix(name[3..], suffix);
    } else {
      assert name[3..] == bucket;
      assert name[|name| - |suffix|..] == suffix by {
        assert |name| - |suffix| == 2;
        assert name[2..] == ['_'] + bucket;
      }
    }
  }

  lemma ServedHasParts(name: string, region: string)
    requires IsMirrorName(name, region)
    ensures HasParts(name, BucketOf(name, region), Suffix(region))
  {
    var suffix, rest := Suffix(region), name[3..];
    assert name == STREAM_PREFIX + rest;
    if HasSuffix(rest, suffix) {
      assert rest == BucketOf(name, region) + suffix;
    } else {
      var cut := |name| - |suffix|;
      assert cut < 3 && name[cut] == name[cut..][0] == '_';
      assert name[0] == 'K' && name[1] == 'V';
      assert rest == name[2..][1..] == suffix[1..];
    }
  }

  /** The name test and the two trims of the source mean exactly this. */
  lemma MirrorNames(name: string, bucket: string, region: string)
    ensures IsMirrorName(name, region) && BucketOf(name, region) == bucket <==> Serves(name, bucket, region)
  {
    ServesByParts(name, bucket, region);
    if HasParts(name, bucket, Suffix(region)) {
      PartsAreServed(name, bucket, region);
    } else if IsMirrorName(name, region) {
      ServedHasParts(name, region);
    }
  }

  datatype Answer = Ok(fromMirror: bool, rev: nat, data: string) | NotFound404 | Unavailable

  /** Mirrors hold prefixes of their sources. */
  ghost predicate MirrorsArePrefixes(streams: map<string, Log>, localMirrorFor: map<string, string>) {
    forall b :: b in localMirrorFor && localMirrorFor[b] in streams ==>
      STREAM_PREFIX + b in streams && streams[localMirrorFor[b]] <= streams[STREAM_PREFIX + b]
  }

  class Adapter {
    const region: string
    var localMirrorFor: map<string, string>

    constructor (region: string)
      ensures this.region == region && localMirrorFor == map[]
    {
      this.region := region;
      localMirrorFor := map[];
    }

    /** Rebuilds the bucket-to-mirror map from the current stream names: a bucket is mapped exactly when some
        stream serves it, and then to such a stream. */
    method RefreshLocalMirrors(names: seq<string>)
      modifies this
      ensures forall b :: b in localMirrorFor ==> localMirrorFor[b] in names && Serves(localMirrorFor[b], b, region)
      ensures forall name, b :: name in names && Serves(name, b, region) ==> b in localMirrorFor
    {
      var next: map<string, string> := map[];
      for k := 0 to |names|
        invariant forall b :: b in next ==> next[b] in names && Serves(next[b], b, region)
        invariant forall i, b :: 0 <= i < k && Serves(names[i], b, region) ==> b in next
      {
        var name := names[k];
        forall b ensures IsMirrorName(name, region) && BucketOf(name, region) == b <==> Serves(name, b, region) {
          MirrorNames(name, b, region);
        }
        if IsMirrorName(name, region) {
          next := next[BucketOf(name, region) := name];
        }
      }
      localMirrorFor := next;
    }

    /** `kvGet` for the latest value. `mirrorFails` stands for a transient error of the mirror read, which falls
        through to the source; that read is spread over the replicas of the source, so it may show only the
        first `upTo` entries, or fail; `creates` is the control plane's answer when a missing bucket has to be
        made: it then exists and is empty. */
    method KvGet(streams: map<string, Log>, bucket: string, key: string, mirrorFails: bool,
                 upTo: nat, sourceFails: bool, creates: bool)
      returns (a: Answer)
      ensures bucket in localMirrorFor && localMirrorFor[bucket] in streams && !mirrorFails ==>
                match Get(streams[localMirrorFor[bucket]], key)
                case Found(rev, data) => a == Ok(true, rev, data)
                case NotFound => a == NotFound404
      ensures !(bucket in localMirrorFor && localMirrorFor[bucket] in streams) || mirrorFails ==>
                if sourceFails then a == Unavailable
                else if "KV_" + bucket !in streams then a == if creates then NotFound404 else Unavailable
                else match Get(Shown(streams["KV_" + bucket], upTo), key)
                     case Found(rev, data) => a == Ok(false, rev, data)
                     case NotFound => a == NotFound404
      ensures MirrorsArePrefixes(streams, localMirrorFor) && a.Ok? ==>
                && "KV_" + bucket in streams
                && 1 <= a.rev <= |streams["KV_" + bucket]|
                && streams["KV_" + bucket][a.rev - 1] == Entry(key, Put, a.data)
    {
      if bucket in localMirrorFor && localMirrorFor[bucket] in streams && !mirrorFails {
        var stream := streams[localMirrorFor[bucket]];
        var r := LastRev(stream, key);
        if r == 0 || stream[r - 1].op.Marker? {
          return NotFound404;
        }
        return Ok(true, r, stream[r - 1].data);
      }
      if sourceFails {
        return Unavailable;
      }
      if STREAM_PREFIX + bucket !in streams {
        return if creates then NotFound404 else Unavailable;
      }
      match Get(Shown(streams[STREAM_PREFIX + bucket], upTo), key) {
        case NotFound =>
          a := NotFound404;
        case Found(rev, data) =>
          a := Ok(false, rev, data);
      }
    }
  }

  /** What a replica that has applied `upTo` entries shows of a stream; all of it if there are not that many. */
  function Shown(log: Log, upTo: nat): (shown: Log)
    ensures shown <= log && (|shown| == upTo || (shown == log && upTo > |log|))
  {
    if upTo <= |log| then log[..upTo] else log
  }
}
