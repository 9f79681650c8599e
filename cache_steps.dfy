/**
  Step semantics of the cache lock backend of src/shared/distributedLock.js,
  as values: each Redis command takes the key space (key -> value and expiry
  instant) before it and gives its reply and the key space after it. The
  class in cache_backend.dfy performs these steps in place.

  Time is one abstract integer unit. The source is not consistent about it:
  the cache backend passes the expiry as a Redis `EX` argument (seconds)
  while the relational backend adds the same number to a millisecond
  timestamp. The model uses one unit for both.
*/
module CacheSteps {
  import opened Wrappers

  /** A cache entry: its stored value and the instant its time-to-live ends. */
  datatype Entry = Entry(value: string, expireAt: int)

  type Store = map<string, Entry>

  /** The value the cache backend stores under a held key. */
  const HeldValue: string := "true"

  /** Redis rejects a `SET ... EX` whose expire time is not positive. */
  datatype CacheError = InvalidExpireTime

  /**
    An entry is visible until its time-to-live has run out; at the instant
    `now == expireAt` it already counts as gone. That is the table's boundary
    (a row is stale once `createdAt + expiry <= now`). Redis itself still
    shows the key at that instant (its test is `now > when`), so the model
    differs from Redis by one instant at the edge of every ttl.
  */
  predicate IsLive(store: Store, key: string, now: int) {
    key in store && now < store[key].expireAt
  }

  /** The reply to `SET key "true" EX ttl NX` (true for "OK") and the store after it. */
  datatype CacheStep = CacheStep(reply: Result<bool, CacheError>, store: Store)

  /**
    `SET key "true" EX ttl NX`: a non-positive ttl is an error; a live key is
    left alone (reply null); otherwise the key is set with the new ttl.
  */
  function CacheSetNx(store: Store, key: string, ttl: int, now: int): CacheStep {
    if ttl <= 0 then CacheStep(Failure(InvalidExpireTime), store)
    else if IsLive(store, key, now) then CacheStep(Success(false), store)
    else CacheStep(Success(true), store[key := Entry(HeldValue, now + ttl)])
  }

  /** `GET key`: the stored value of a live key, null otherwise. */
  function CacheGet(store: Store, key: string, now: int): Option<string> {
    if IsLive(store, key, now) then Some(store[key].value) else None
  }

  /** `DEL key`. */
  function CacheDel(store: Store, key: string): Store {
    store - {key}
  }

  /**
    With a positive ttl the set is performed exactly when the key is not
    live; when performed it holds "true" until now + ttl, and nothing else
    changes; when not performed the store is untouched.
  */
  lemma CacheSetNxPerformedIffAbsent(store: Store, key: string, ttl: int, now: int)
    requires ttl > 0
    ensures var r := CacheSetNx(store, key, ttl, now);
      && r.reply == Success(!IsLive(store, key, now))
      && (r.reply.value ==> r.store == store[key := Entry(HeldValue, now + ttl)])
      && (!r.reply.value ==> r.store == store)
  {
  }

  /** A non-positive ttl is an error reply, and the store is untouched. */
  lemma CacheSetNxRejectsNonPositiveTtl(store: Store, key: string, ttl: int, now: int)
    requires ttl <= 0
    ensures CacheSetNx(store, key, ttl, now) == CacheStep(Failure(InvalidExpireTime), store)
  {
  }

  /** A successful set excludes every set of the same key until its ttl runs out. */
  lemma CacheSetNxExcludesUntilExpiry(store: Store, key: string, ttl: int, now: int, ttl': int, now': int)
    requires CacheSetNx(store, key, ttl, now).reply == Success(true)
    requires ttl' > 0 && now' < now + ttl
    ensures CacheSetNx(CacheSetNx(store, key, ttl, now).store, key, ttl', now').reply == Success(false)
  {
  }

  /** Delete is unconditional and idempotent; afterwards the key is free. */
  lemma CacheDelUnconditional(store: Store, key: string, ttl: int, now: int)
    requires ttl > 0
    ensures CacheDel(CacheDel(store, key), key) == CacheDel(store, key)
    ensures CacheGet(CacheDel(store, key), key, now) == None
    ensures CacheSetNx(CacheDel(store, key), key, ttl, now).reply == Success(true)
  {
  }

  /**
    Unlike the relational backend, the cache's existence check agrees with
    acquisition: a key reads as present exactly when a set would be refused.
  */
  lemma CacheGetAgreesWithSetNx(store: Store, key: string, ttl: int, now: int)
    requires ttl > 0
    ensures CacheGet(store, key, now).Some? <==> CacheSetNx(store, key, ttl, now).reply == Success(false)
  {
  }
}
