/**
  The façade of src/shared/distributedLock.js: `acquireLock`, `releaseLock`
  and `checkLockExists`. Each builds the full key and hands it to the one
  backend chosen by the platform flag (`isOnCF`: the cache when true, the
  EventLock table otherwise). The flag and the configured default expiry
  (`globalTxTimeout`) are fixed when the service is built.
*/
module DistributedLock {
  import opened Wrappers
  import opened KeyBuilder
  import opened DbSteps
  import opened CacheSteps
  import opened RelationalBackend
  import opened CacheBackend

  /** What `checkLockExists` returns: a boolean from the table, the raw value from the cache. */
  datatype ExistsReply = Flag(present: bool) | Stored(value: Option<string>)

  class LockService {
    const isOnCF: bool
    const globalTxTimeout: int
    const table: EventLockTable
    const client: CacheStore

    constructor (isOnCF: bool, globalTxTimeout: int, table: EventLockTable, client: CacheStore)
      ensures this.isOnCF == isOnCF && this.globalTxTimeout == globalTxTimeout
      ensures this.table == table && this.client == client
    {
      this.isOnCF := isOnCF;
      this.globalTxTimeout := globalTxTimeout;
      this.table := table;
      this.client := client;
    }

    /** `acquireLock(context, key, {tenantScoped = true, expiryTime = globalTxTimeout})`. */
    method AcquireLock(context: Context, key: string, now: int,
                       tenantScoped: bool := true, expiryTime: Option<int> := None)
      returns (result: Result<bool, CacheError>)
      modifies table, client
      ensures var fullKey := GenerateKey(context, tenantScoped, key);
              var expiry := expiryTime.GetOr(globalTxTimeout);
        if isOnCF then
          && CacheStep(result, client.entries) == CacheSetNx(old(client.entries), fullKey, expiry, now)
          && table.rows == old(table.rows)
        else
          && result.Success?
          && DbStep(result.value, table.rows) == DbAcquire(old(table.rows), fullKey, expiry, now)
          && client.entries == old(client.entries)
    {
      var fullKey := GenerateKey(context, tenantScoped, key);
      var expiry := expiryTime.GetOr(globalTxTimeout);
      if isOnCF {
        result := AcquireLockRedis(client, fullKey, expiry, now);
      } else {
        var acquired := AcquireLockDb(table, fullKey, expiry, now);
        result := Success(acquired);
      }
    }

    /** `releaseLock(context, key, {tenantScoped = true})`. */
    method ReleaseLock(context: Context, key: string, tenantScoped: bool := true)
      modifies table, client
      ensures var fullKey := GenerateKey(context, tenantScoped, key);
        if isOnCF then
          client.entries == CacheDel(old(client.entries), fullKey) && table.rows == old(table.rows)
        else
          table.rows == DbRelease(old(table.rows), fullKey) && client.entries == old(client.entries)
    {
      var fullKey := GenerateKey(context, tenantScoped, key);
      if isOnCF {
        ReleaseLockRedis(client, fullKey);
      } else {
        ReleaseLockDb(table, fullKey);
      }
    }

    /** `checkLockExists(context, key, {tenantScoped = true})`. */
    method CheckLockExists(context: Context, key: string, now: int, tenantScoped: bool := true)
      returns (result: ExistsReply)
      ensures var fullKey := GenerateKey(context, tenantScoped, key);
        if isOnCF then result == Stored(CacheGet(client.entries, fullKey, now))
        else result == Flag(DbExists(table.rows, fullKey))
    {
      var fullKey := GenerateKey(context, tenantScoped, key);
      if isOnCF {
        var value := CheckLockExistsRedis(client, fullKey, now);
        result := Stored(value);
      } else {
        var present := CheckLockExistsDb(table, fullKey);
        result := Flag(present);
      }
    }
  }
}
