# Distributed lock of event-queue, modelled in Dafny

This project models the lock service in `src/shared/distributedLock.js`. The
event-queue engine uses it so that only one process instance at a time does
the work guarded by a key. Callers go through three façade functions,
`acquireLock`, `releaseLock` and `checkLockExists`. Each one builds a full
key. For a tenant-scoped call, the default, that is the tenant of the
context, `##`, then the raw key; an unscoped call uses the raw key alone.
It then hands the call
to one of two backends, picked by the platform flag `isOnCF`:

- the **cache backend** (Redis), which uses `SET key "true" EX expiry NX`,
  `GET` and `DEL`;
- the **relational backend**, over the `sap.core.EventLock` table
  (`code -> createdAt`). Acquire tries an INSERT. If the key is taken, it
  reads the row and steals it when it is stale (`createdAt + expiry <= now`),
  by rewriting `createdAt`. Release is a DELETE. Exists only checks whether
  the row is there.

Layout, one module per file:

- `wrappers.dfy`: `Option` and `Result`.
- `key_builder.dfy`: `_generateKey` as a pure function over `join`. It has
  lemmas on tenant isolation and on where keys collide.
- `db_steps.dfy`: the step semantics of the relational backend as
  functions on values, with the per-call properties. The lock table is a
  `map<string,int>` from code to createdAt.
- `cache_steps.dfy`: the step semantics of the three Redis commands, with
  the per-call properties. The key space maps each key to its value and
  expiry instant.
- `relational_backend.dfy`: class `EventLockTable`, whose `rows` field is
  changed in place by `Insert`, `UpdateCreatedAt` and `Delete` and read by
  `SelectOne`; also `_acquireLockDB`, `_releaseLockDb` and `_checkLockExistsDb` built
  from those statements.
- `cache_backend.dfy`: class `CacheStore`, whose `entries` field is changed
  by `SetNx` and `Del` and read by `Get`; also the three Redis lock
  functions.
- `distributed_lock.dfy`: class `LockService`, the façade. Its backend
  flag, its default expiry (`globalTxTimeout`) and its two backends are
  fixed when it is built.
- `traces.dfy`: runs of call sequences against each backend. It proves, on
  each backend, that a held lock excludes other acquirers until it is
  released or expires, and, on the relational backend, that tenants lock
  independently. It also proves that the two backends agree when they start
  in matching states and every acquire uses one positive expiry: they give
  the same answer to every acquire and release. For exists the agreement is
  one-way: a key present in the cache is present in the table, but the table
  also reports stale rows. The single expiry is needed because the backends
  judge expiry differently. The table judges staleness by the expiry of the
  caller trying to steal (line 108), so a caller with a shorter expiry can
  take a row before its holder's expiry has run out. In Redis the holder's
  ttl decides.

Time is one abstract integer, `now`, passed to every call that reads the
clock. The source uses `expiryTime` in two units. Redis takes it as `EX`,
which is in seconds (line 46). The relational path adds it to a millisecond
timestamp (line 108). The model uses one unit for both. The same
configured number gives lock lifetimes that differ by a factor of 1000 on
the two platforms.

Four behaviours of the code and how the model treats them:

- When the locked read finds no row, the `!currentEntry` branch (line 107)
  goes on to read `currentEntry.code` (line 115) and throws. In the model
  the branch is dead, because an insert fails only when the row exists. `AcquireLockDb` proves this with `assert false`.
- The `catch` at line 99 takes every insert error, not only a duplicate
  code, into the steal path. In the model an insert fails exactly when the
  code is present.
- The two backends answer exists with different types. The cache path
  returns the raw stored value, `"true"` or null (line 54). The table path
  returns a boolean (line 68). `CheckLockExists` returns `Flag(bool)` for
  the table and `Stored(Option<string>)` for the cache.
- The INSERT gives no `createdAt` (lines 94-96); the table default fills it
  in. The model sets it to `now`.

## Model

| member | source | states |
|---|---|---|
| KeyBuilder.JoinAppend | src/shared/distributedLock.js:131 | joining a non-empty list with one more part appended gives the old join, the separator, then that part |
| KeyBuilder.GenerateKey | src/shared/distributedLock.js:127-132 | unscoped: the full key is the raw key; scoped: it is the tenant text, "##", then the key (a missing tenant renders as "") |
| KeyBuilder.RawKeyIsSuffix | src/shared/distributedLock.js:127-132 | the raw key always ends the full key |
| KeyBuilder.TenantIsolation | src/shared/distributedLock.js:127-132 | for one raw key, two scoped keys are equal iff the two tenants render to the same text, so different tenant names never share a key |
| KeyBuilder.MissingTenantMeansEmptyTenant | src/shared/distributedLock.js:129-131 | a context without a tenant and one with the empty tenant give the same scoped key, "##" + key |
| KeyBuilder.ScopedAndGlobalKeysShareOneSpace | src/shared/distributedLock.js:127-132 | tenant t's scoped key k equals the global key t + "##" + k |
| DbSteps.DbAcquireDecision | src/shared/distributedLock.js:92-120 | acquire succeeds iff no row has the code or its row is stale (createdAt + expiry <= now) |
| DbSteps.DbAcquireAbsent | src/shared/distributedLock.js:92-98 | on a free code: returns true, adds exactly that code with createdAt = now, every other row unchanged |
| DbSteps.DbAcquireLive | src/shared/distributedLock.js:106-120 | on a live row: returns false, table unchanged |
| DbSteps.DbAcquireStale | src/shared/distributedLock.js:106-117 | on a stale row: returns true, that row's createdAt becomes now, no row added or removed, no other row changed |
| DbSteps.DbAcquireExcludesUntilExpiry | src/shared/distributedLock.js:92-120 | after a successful acquire at now, a second acquire of that code fails while now' < now + expiry' (so also at the same instant with a positive expiry) |
| DbSteps.DbReleaseRemoves | src/shared/distributedLock.js:76-84 | release removes the code and keeps every other row and its createdAt |
| DbSteps.DbReleaseIdempotent | src/shared/distributedLock.js:76-84 | releasing twice equals releasing once; releasing a free code is a no-op |
| DbSteps.DbReleaseThenAcquire | src/shared/distributedLock.js:76-98 | after a release, an acquire of the code succeeds |
| DbSteps.DbExistsIgnoresStaleness | src/shared/distributedLock.js:57-69 | a stale row still reads as present while an acquire would steal it |
| CacheSteps.CacheSetNxPerformedIffAbsent | src/shared/distributedLock.js:43-50 | with a positive expiry, the set is performed (true) iff the key is not live; if performed, the key holds "true" until now + expiry and nothing else changes; otherwise the store is unchanged |
| CacheSteps.CacheSetNxRejectsNonPositiveTtl | src/shared/distributedLock.js:45-48 | a non-positive EX is an error reply and the store is unchanged |
| CacheSteps.CacheSetNxExcludesUntilExpiry | src/shared/distributedLock.js:43-50 | after a successful set, every set of the key is refused until its ttl runs out |
| CacheSteps.CacheDelUnconditional | src/shared/distributedLock.js:71-74 | delete is idempotent; afterwards the key reads as absent and can be set |
| CacheSteps.CacheGetAgreesWithSetNx | src/shared/distributedLock.js:52-55 | the cache reports a key present iff a set would be refused |
| RelationalBackend.EventLockTable.Insert | src/shared/distributedLock.js:93-97 | the insert succeeds iff the code is absent, and then adds it with createdAt = now; otherwise nothing changes |
| RelationalBackend.EventLockTable.SelectOne | src/shared/distributedLock.js:100-105 | returns the row's createdAt iff the code is present |
| RelationalBackend.EventLockTable.UpdateCreatedAt | src/shared/distributedLock.js:110-116 | rewrites createdAt of the matching row only |
| RelationalBackend.EventLockTable.Delete | src/shared/distributedLock.js:81 | removes the matching row only |
| RelationalBackend.AcquireLockDb | src/shared/distributedLock.js:86-125 | the answer and the new table are those of the insert-or-steal step DbAcquire; the missing-row branch is proved unreachable |
| RelationalBackend.ReleaseLockDb | src/shared/distributedLock.js:76-84 | the new table is the old one without the key |
| RelationalBackend.CheckLockExistsDb | src/shared/distributedLock.js:57-69 | returns true iff a row with the key is present |
| CacheBackend.CacheStore.SetNx | src/shared/distributedLock.js:45-48 | error on non-positive ttl; false and unchanged when the key is live; otherwise true with the key set to the value until now + ttl |
| CacheBackend.CacheStore.Get | src/shared/distributedLock.js:54 | returns the stored value iff the key is live |
| CacheBackend.CacheStore.Del | src/shared/distributedLock.js:73 | removes the key whether or not it is present |
| CacheBackend.AcquireLockRedis | src/shared/distributedLock.js:43-50 | the reply and the new key space are those of the set-if-absent step CacheSetNx with value "true" |
| CacheBackend.ReleaseLockRedis | src/shared/distributedLock.js:71-74 | the new key space is the old one without the key |
| CacheBackend.CheckLockExistsRedis | src/shared/distributedLock.js:52-55 | returns the raw value of a live key, null otherwise |
| DistributedLock.LockService.AcquireLock | src/shared/distributedLock.js:9-23 | builds the full key, uses globalTxTimeout when no expiry is given, and performs the acquire on the selected backend only |
| DistributedLock.LockService.ReleaseLock | src/shared/distributedLock.js:25-32 | builds the full key and deletes it on the selected backend only |
| DistributedLock.LockService.CheckLockExists | src/shared/distributedLock.js:34-41 | builds the full key and answers from the selected backend: a boolean from the table, the raw value from the cache |
| Traces.RunDb | src/shared/distributedLock.js:57-125 | one reply per call, of the shape the call asks for; the relational backend never fails |
| Traces.RunCache | src/shared/distributedLock.js:43-74 | one reply per call, of the shape the call asks for |
| Traces.DbHeldUntilReleaseOrExpiry | src/shared/distributedLock.js:86-125 | over any run that does not release the code and whose acquires of it come before their expiry elapses, the row keeps its createdAt and every such acquire fails |
| Traces.AcquiredLockExcludes | src/shared/distributedLock.js:86-125 | after a successful acquire, every later acquire of the code in the run fails until a release or the expiry |
| Traces.CacheHeldUntilReleaseOrExpiry | src/shared/distributedLock.js:43-50 | over any cache run that does not release the key and whose acquires of it come before the entry's expiry instant, the entry stays unchanged and no such acquire succeeds |
| Traces.BackendsAgree | src/shared/distributedLock.js:9-41 | started on mirroring states with one positive expiry, both backends give the same reply to every acquire and release and stay mirrored; a key present in the cache is present in the table |
| Traces.TenantsLockIndependently | src/shared/distributedLock.js:9-23 | acquiring under one tenant leaves a differently named tenant's row alone and does not change the outcome of its acquire |

## Left out

- Concurrency between processes cannot be modelled sequentially, so no claim of distributed mutual exclusion is made. Left out with it: the per-call transactions (`executeInNewTransaction`, lines 59, 77 and 88) and the row lock with its wait timeout (`forUpdate({ wait })`, line 103). Each call is one atomic step.
- AcquireLockDb: the `!currentEntry` branch (line 107) is reached whenever the insert fails while no row has the code. That happens when a release runs concurrently between the insert and the read, or when the insert fails for any reason other than a duplicate code, such as a connection failure, since the `catch` at line 99 takes every error. The source then throws on `currentEntry.code` (line 115). The model has no insert errors other than a duplicate and no concurrency, so it does not capture that failure.
- The Redis client connection (`_createMainClientAndConnect`, line 44) is a network call, so it is left out. So are all transport errors. Only the semantics of SET NX EX, GET and DEL are kept.
- Clocks are a `now` parameter. The model also leaves out that the table's createdAt default and `Date.now()` may come from different clocks. Timestamps are integers instead of ISO-8601 strings (lines 108 and 113).
- Time units: the seconds-versus-milliseconds mismatch of `expiryTime` lies outside the model, which has one time unit.
- CacheSetNx: only non-positive values are rejected as invalid EX arguments. The model's ttl is an unbounded integer, so it accepts EX values beyond Redis's 64-bit expire range, which Redis answers with an error reply. Non-integer values cannot be passed in the model.
- CacheSteps.IsLive: a key counts as gone at the instant its ttl ends (`now == expireAt`), matching the table's boundary; Redis still shows it at that instant (`now > when`), so the model differs from Redis there by one instant.
- Redis removes expired keys itself. The model keeps them in the map and treats them as absent, which is what the client observes.
- `isOnCF` and `config.getConfigInstance()` become constructor parameters of `LockService`.
- test-integration/integration-main.test.js is context only. It drives the whole event-queue engine against a database, so there is no lock logic in it to model.
