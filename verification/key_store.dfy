/** The control plane's store of tenants and API keys, and the two operations that revoke a tenant's keys. */
module KeyStore {
  import opened Wrappers
  import opened KeyRecords

  datatype Tenant = Tenant(id: string, tag: string, suspended: bool)

  datatype Result<T> = Ok(value: T) | NotFound | Failed

  /** What a listing makes of one hash: its latest record if it can be read and is the tenant's, or nothing. */
  function Pick(log: Log, hash: string, down: set<string>, tenant: Option<string>): seq<Record> {
    var k := Latest(log, hash);
    if hash !in down && k.Some? && (tenant.None? || k.value.tenant == tenant.value) then [k.value] else []
  }

  /** The records among `log`'s latest ones that pass, in the order of `hashes`; unreadable ones are skipped. */
  function Readable(log: Log, hashes: seq<string>, down: set<string>, tenant: Option<string>): seq<Record> {
    if hashes == [] then []
    else Readable(log, hashes[..|hashes| - 1], down, tenant) + Pick(log, hashes[|hashes| - 1], down, tenant)
  }

  /** Whether a record is one a listing should have. */
  predicate Listed(log: Log, k: Record, down: set<string>, tenant: Option<string>) {
    k.hash !in down && Latest(log, k.hash) == Some(k) && (tenant.None? || k.tenant == tenant.value)
  }

  lemma PickCounts(log: Log, hash: string, down: set<string>, tenant: Option<string>, k: Record)
    ensures multiset(Pick(log, hash, down, tenant))[k] == if Listed(log, k, down, tenant) && k.hash == hash then 1 else 0
  {
    var i := LatestIndex(log, hash);
  }

  lemma {:induction false} ReadableMeaning(log: Log, hashes: seq<string>, down: set<string>, tenant: Option<string>, k: Record)
    ensures multiset(Readable(log, hashes, down, tenant))[k]
            == if Listed(log, k, down, tenant) then multiset(hashes)[k.hash] else 0
  {
    if hashes != [] {
      var init, h := hashes[..|hashes| - 1], hashes[|hashes| - 1];
      ReadableMeaning(log, init, down, tenant, k);
      PickCounts(log, h, down, tenant, k);
      assert hashes == init + [h];
    }
  }

  /** A listing holds the latest record of every readable key of the tenant exactly once, and nothing else. */
  lemma ListingMeaning(log: Log, down: set<string>, tenant: Option<string>, k: Record)
    ensures multiset(Readable(log, Keys(log), down, tenant))[k] == if Listed(log, k, down, tenant) then 1 else 0
    ensures k in Readable(log, Keys(log), down, tenant) <==> Listed(log, k, down, tenant)
  {
    ReadableMeaning(log, Keys(log), down, tenant, k);
    KeysMeaning(log, k.hash);
    assert k in Readable(log, Keys(log), down, tenant) <==> k in multiset(Readable(log, Keys(log), down, tenant));
  }

  /** The control plane's store, one operation at a time. `down` is, throughout, the set of hashes whose record
      cannot be read or rewritten during the call, or that a lagging replica does not show to it. */
  class Store {
    var keys: Log
    var tenants: map<string, Tenant>

    constructor ()
      ensures keys == [] && tenants == map[]
    {
      keys, tenants := [], map[];
    }

    method GetTenant(id: string) returns (r: Result<Tenant>)
      ensures r == if id in tenants then Ok(tenants[id]) else NotFound
    {
      r := if id in tenants then Ok(tenants[id]) else NotFound;
    }

    method DeleteTenant(id: string)
      modifies `tenants
      ensures tenants == old(tenants) - {id}
    {
      tenants := tenants - {id};
    }

    method PutKey(k: Record)
      modifies `keys
      ensures keys == old(keys) + [k]
    {
      keys := keys + [k];
    }

    method GetKeyByHash(hash: string) returns (r: Result<Record>)
      ensures Latest(keys, hash).None? ==> r == NotFound
      ensures Latest(keys, hash).Some? ==> r == Ok(Latest(keys, hash).value)
    {
      var i := |keys|;
      assert keys[..i] == keys;
      while i > 0
        invariant 0 <= i <= |keys|
        invariant Latest(keys, hash) == Latest(keys[..i], hash)
      {
        if keys[i - 1].hash == hash {
          return Ok(keys[i - 1]);
        }
        assert keys[..i][..i - 1] == keys[..i - 1];
        i := i - 1;
      }
      r := NotFound;
    }

    /** `ListKeysByTenant`, and `AllKeys` for `tenant == None`. */
    method List(tenant: Option<string>, down: set<string>) returns (out: seq<Record>)
      ensures out == Readable(keys, Keys(keys), down, tenant)
    {
      var hashes := Keys(keys);
      out := [];
      for i := 0 to |hashes|
        invariant out == Readable(keys, hashes[..i], down, tenant)
      {
        assert hashes[..i + 1][..i] == hashes[..i];
        if hashes[i] in down {
          continue;
        }
        var k := GetKeyByHash(hashes[i]);
        if k.Ok? && (tenant.None? || k.value.tenant == tenant.value) {
          out := out + [k.value];
        }
      }
      assert hashes[..|hashes|] == hashes;
    }

    /** Read, stamp, write back. */
    method RevokeKey(hash: string, now: nat, down: set<string>) returns (r: Result<()>)
      requires now > 0
      modifies `keys
      ensures keys == if hash in down || Latest(old(keys), hash).None? then old(keys)
                      else old(keys) + [Latest(old(keys), hash).value.(revokedAt := now)]
      ensures r.Ok? <==> hash !in down && Latest(old(keys), hash).Some?
    {
      if hash in down {
        return Failed;
      }
      var k := GetKeyByHash(hash);
      if !k.Ok? {
        return NotFound;
      }
      PutKey(k.value.(revokedAt := now));
      r := Ok(());
    }

    /** The revoke loop of `regenKey` and `deleteTenant`: list, then revoke each; errors are ignored. Exactly
        the readable keys of the tenant end up revoked, all of them stamped `now`. */
    method RevokeTenantKeys(tenant: string, now: nat, listFails: bool, down: set<string>)
      requires now > 0
      modifies `keys
      ensures forall h :: Latest(keys, h) == AfterRevoking(old(keys), h, tenant, now, listFails, down)
      ensures old(keys) <= keys
    {
      var existing := [];
      if !listFails {
        existing := List(Some(tenant), down);
      }
      forall k ensures !listFails ==> (k in existing <==> Listed(keys, k, down, Some(tenant))) {
        ListingMeaning(keys, down, Some(tenant), k);
      }
      label L:
      for i := 0 to |existing|
        invariant old@L(keys) <= keys
        invariant forall h :: Latest(keys, h) == Stamped(old@L(keys), h, existing[..i], now)
      {
        assert Latest(keys, existing[i].hash) == Stamped(old@L(keys), existing[i].hash, existing[..i], now);
        assert Listed(old@L(keys), existing[i], down, Some(tenant));
        var _ := RevokeKey(existing[i].hash, now, down);
        forall h ensures Latest(keys, h) == Stamped(old@L(keys), h, existing[..i + 1], now) {
          StampedNext(old@L(keys), h, existing, i, now);
        }
      }
      assert existing[..|existing|] == existing;
      forall h ensures Latest(keys, h) == AfterRevoking(old(keys), h, tenant, now, listFails, down) {
        StampedAll(old(keys), h, existing, tenant, now, listFails, down);
      }
    }

    /** `regenKey`: the new key, or an error. `hash` is the random new key's, `putFails` the failure of its write. */
    method RegenKey(tenant: string, id: string, hash: string, now: nat, listFails: bool, down: set<string>, putFails: bool)
      returns (r: Result<string>)
      requires now > 0 && Latest(keys, hash).None?
      modifies `keys
      ensures r == if tenant !in tenants then NotFound else if putFails then Failed else Ok(id)
      ensures r.NotFound? ==> keys == old(keys)
      ensures r.Failed? ==> forall h :: Latest(keys, h) == AfterRevoking(old(keys), h, tenant, now, listFails, down)
      ensures r.Ok? ==> Regenerated(old(keys), keys, tenant, id, hash, now, listFails, down)
    {
      var t := GetTenant(tenant);
      if !t.Ok? {
        return NotFound;
      }
      RevokeTenantKeys(tenant, now, listFails, down);
      if putFails {
        return Failed;
      }
      PutKey(Record(id, tenant, hash, 0));
      r := Ok(id);
    }

    /** `deleteTenant`: all keys are revoked before the tenant record goes. */
    method RemoveTenant(tenant: string, now: nat, listFails: bool, down: set<string>, deleteFails: bool)
      returns (r: Result<()>)
      requires now > 0
      modifies this
      ensures r == if tenant !in old(tenants) then NotFound else if deleteFails then Failed else Ok(())
      ensures r.NotFound? ==> keys == old(keys)
      ensures !r.NotFound? ==> forall h :: Latest(keys, h) == AfterRevoking(old(keys), h, tenant, now, listFails, down)
      ensures tenants == if r.Ok? then old(tenants) - {tenant} else old(tenants)
    {
      var t := GetTenant(tenant);
      if !t.Ok? {
        return NotFound;
      }
      RevokeTenantKeys(tenant, now, listFails, down);
      if deleteFails {
        return Failed;
      }
      DeleteTenant(tenant);
      r := Ok(());
    }
  }

  /** The latest record of a hash after a tenant's keys have been revoked. */
  function AfterRevoking(log: Log, h: string, tenant: string, now: nat, listFails: bool, down: set<string>): Option<Record> {
    var k := Latest(log, h);
    if !listFails && h !in down && k.Some? && k.value.tenant == tenant then Some(k.value.(revokedAt := now)) else k
  }

  /** The latest record of a hash after some records have been stamped. */
  function Stamped(log: Log, h: string, done: seq<Record>, now: nat): Option<Record> {
    var k := Latest(log, h);
    if k.Some? && k.value in done then Some(k.value.(revokedAt := now)) else k
  }

  lemma StampedNext(log: Log, h: string, existing: seq<Record>, i: nat, now: nat)
    requires i < |existing| && Latest(log, existing[i].hash) == Some(existing[i])
    ensures Stamped(log, h, existing[..i + 1], now)
            == if h == existing[i].hash then Some(existing[i].(revokedAt := now)) else Stamped(log, h, existing[..i], now)
  {
    assert existing[..i + 1] == existing[..i] + [existing[i]];
    var j := LatestIndex(log, h);
  }

  lemma StampedAll(log: Log, h: string, existing: seq<Record>, tenant: string, now: nat, listFails: bool, down: set<string>)
    requires if listFails then existing == [] else forall k :: k in existing <==> Listed(log, k, down, Some(tenant))
    ensures Stamped(log, h, existing, now) == AfterRevoking(log, h, tenant, now, listFails, down)
  {
    var j := LatestIndex(log, h);
  }

  // ----- what the two operations leave active

  /** The log before and after `regenKey` succeeded. */
  ghost predicate Regenerated(log: Log, log': Log, tenant: string, id: string, hash: string, now: nat, listFails: bool, down: set<string>) {
    && now > 0 && Latest(log, hash).None?
    && Latest(log', hash) == Some(Record(id, tenant, hash, 0))
    && forall h :: h != hash ==> Latest(log', h) == AfterRevoking(log, h, tenant, now, listFails, down)
  }

  ghost predicate ActiveOf(log: Log, h: string, tenant: string) {
    ActiveIn(log, h) && Latest(log, h).value.tenant == tenant
  }

  /** The new key is the tenant's only active one exactly when the list came back and every key that was
      active could be revoked; keys of other tenants are as they were in any case. */
  lemma OnlyTheNewKeyIsActive(log: Log, log': Log, tenant: string, id: string, hash: string, now: nat,
        listFails: bool, down: set<string>)
    requires Regenerated(log, log', tenant, id, hash, now, listFails, down)
    ensures ActiveOf(log', hash, tenant)
    ensures (forall h :: ActiveOf(log', h, tenant) ==> h == hash)
            <==> forall h :: ActiveOf(log, h, tenant) ==> !listFails && h !in down
    ensures forall h, other :: other != tenant ==> (ActiveOf(log', h, other) <==> ActiveOf(log, h, other))
  {
    forall h | h != hash
      ensures ActiveOf(log', h, tenant) <==> ActiveOf(log, h, tenant) && (listFails || h in down)
    {
      assert Latest(log', h) == AfterRevoking(log, h, tenant, now, listFails, down);
    }
    assert forall h :: ActiveOf(log, h, tenant) ==> h != hash;
    forall h, other | other != tenant ensures ActiveOf(log', h, other) <==> ActiveOf(log, h, other) {
      if h != hash {
        assert Latest(log', h) == AfterRevoking(log, h, tenant, now, listFails, down);
      }
    }
  }

  /** A key's revocation time changes exactly when the list came back, its record could be read and rewritten, it
      is the tenant's and it does not carry this very time already; in particular a key revoked before loses
      its original revocation time. */
  lemma RevocationTimeIsOverwritten(log: Log, log': Log, tenant: string, id: string, hash: string, now: nat,
                                    listFails: bool, down: set<string>, h: string)
    requires Regenerated(log, log', tenant, id, hash, now, listFails, down)
    requires Latest(log, h).Some?
    ensures Latest(log', h).Some?
    ensures var before, after := Latest(log, h).value, Latest(log', h).value;
            && (after.revokedAt != before.revokedAt
                <==> !listFails && h !in down && before.tenant == tenant && before.revokedAt != now)
            && (after.revokedAt != before.revokedAt ==> after.revokedAt == now)
  {
    assert Latest(log', h) == AfterRevoking(log, h, tenant, now, listFails, down);
  }
}

/** The adapter's cache of active keys. */
module KeyCache {
  import opened Wrappers
  import opened KeyRecords

  datatype Response = TransportError | BadStatus | Undecodable | Fetched(records: seq<Record>)

  ghost predicate ActiveRecord(records: seq<Record>, hash: string, tenant: string) {
    exists i :: 0 <= i < |records| && records[i].hash == hash && records[i].Active() && records[i].tenant == tenant
  }

  class Cache {
    const demo: string
    const url: string
    var keys: map<string, string>
    /** The last complete answer of the control plane. */
    ghost var answer: seq<Record>

    ghost predicate Valid()
      reads this
    {
      keys == ActiveMap(answer)
    }

    constructor (demo: string, url: string)
      ensures Valid() && this.demo == demo && this.url == url && answer == []
    {
      this.demo, this.url := demo, url;
      keys, answer := map[], [];
    }

    /** `refresh`: the map is replaced as a whole, and only by a complete answer. */
    method Refresh(response: Response)
      requires Valid()
      modifies this
      ensures Valid()
      ensures answer == if url == "" || !response.Fetched? then old(answer) else response.records
    {
      if url == "" || !response.Fetched? {
        return;
      }
      var next: map<string, string> := map[];
      for i := 0 to |response.records|
        invariant next == ActiveMap(response.records[..i])
      {
        var k := response.records[i];
        assert response.records[..i + 1][..i] == response.records[..i];
        if !k.Active() {
          continue;
        }
        next := next[k.hash := k.tenant];
      }
      assert response.records[..|response.records|] == response.records;
      keys, answer := next, response.records;
    }

    /** `Validate`: apart from the demo token, a credential is accepted exactly when the last complete answer
        holds an active record for its hash, and then for such a record's tenant. */
    method Validate(sha256: string -> string, plaintext: string) returns (tenant: Option<string>)
      requires Valid()
      ensures plaintext == demo ==> tenant == Some("demo")
      ensures plaintext != demo && tenant.Some? ==> ActiveRecord(answer, sha256(plaintext), tenant.value)
      ensures plaintext != demo && tenant.None? ==> forall t :: !ActiveRecord(answer, sha256(plaintext), t)
    {
      if plaintext == demo {
        return Some("demo");
      }
      var hash := sha256(plaintext);
      ActiveMapMeaning(answer, hash);
      tenant := if hash in keys then Some(keys[hash]) else None;
    }
  }
}
