/**
  The cache backend of src/shared/distributedLock.js: the three Redis
  commands it issues, over an explicit key space, and the functions
  `_acquireLockRedis`, `_releaseLockRedis` and `_checkLockExistsRedis`.
  Expired entries are kept in the map and treated as absent, which is what
  a Redis client observes; the current time is a parameter.
*/
module CacheBackend {
  import opened Wrappers
  import opened CacheSteps

  /** The Redis key space, updated in place by SET and DEL. */
  class CacheStore {
    var entries: Store

    constructor (initial: Store)
      ensures entries == initial
    {
      entries := initial;
    }

    /** `SET key value EX ttl NX`: true when Redis replies "OK". */
    method SetNx(key: string, value: string, ttl: int, now: int) returns (reply: Result<bool, CacheError>)
      modifies this
      ensures ttl <= 0 ==> reply == Failure(InvalidExpireTime) && entries == old(entries)
      ensures ttl > 0 && IsLive(old(entries), key, now) ==> reply == Success(false) && entries == old(entries)
      ensures ttl > 0 && !IsLive(old(entries), key, now) ==>
        reply == Success(true) && entries == old(entries)[key := Entry(value, now + ttl)]
    {
      if ttl <= 0 {
        reply := Failure(InvalidExpireTime);
      } else if key in entries && now < entries[key].expireAt {
        reply := Success(false);
      } else {
        entries := entries[key := Entry(value, now + ttl)];
        reply := Success(true);
      }
    }

    /** `GET key`: the value of a live key, null otherwise. */
    method Get(key: string, now: int) returns (value: Option<string>)
      ensures value.Some? <==> IsLive(entries, key, now)
      ensures value.Some? ==> value.value == entries[key].value
    {
      if key in entries && now < entries[key].expireAt {
        value := Some(entries[key].value);
      } else {
        value := None;
      }
    }

    /** `DEL key`: removes the key whether or not it is present. */
    method Del(key: string)
      modifies this
      ensures entries == old(entries) - {key}
    {
      entries := entries - {key};
    }
  }

  /** `_acquireLockRedis`: set "true" under the key if absent, with the expiry as ttl. */
  method AcquireLockRedis(client: CacheStore, fullKey: string, expiryTime: int, now: int)
    returns (result: Result<bool, CacheError>)
    modifies client
    ensures CacheStep(result, client.entries) == CacheSetNx(old(client.entries), fullKey, expiryTime, now)
  {
    result := client.SetNx(fullKey, HeldValue, expiryTime, now);
  }

  /** `_releaseLockRedis`: unconditional delete. */
  method ReleaseLockRedis(client: CacheStore, fullKey: string)
    modifies client
    ensures client.entries == CacheDel(old(client.entries), fullKey)
  {
    client.Del(fullKey);
  }

  /** `_checkLockExistsRedis`: the raw stored value ("true") or null. */
  method CheckLockExistsRedis(client: CacheStore, fullKey: string, now: int) returns (value: Option<string>)
    ensures value == CacheGet(client.entries, fullKey, now)
  {
    value := client.Get(fullKey, now);
  }
}
