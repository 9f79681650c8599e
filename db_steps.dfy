/**
  Step semantics of the relational lock backend of
  src/shared/distributedLock.js, as values: each call takes the EventLock
  table (code -> createdAt) before it and gives its answer and the table
  after it. The class in relational_backend.dfy performs these steps in place.

  Time is one abstract integer unit. The source is not consistent about it:
  the cache backend passes the expiry as a Redis `EX` argument (seconds)
  while the relational backend adds the same number to a millisecond
  timestamp. The model uses one unit for both.
*/
module DbSteps {

  /** The lock table: one row per held code, carrying the row's createdAt. */
  type Rows = map<string, int>

  /** A row is stale once its age has reached the caller's expiry. */
  predicate IsStale(createdAt: int, expiry: int, now: int) {
    createdAt + expiry <= now
  }

  /** The answer of an acquire and the table after it. */
  datatype DbStep = DbStep(acquired: bool, rows: Rows)

  /**
    `_acquireLockDB`: the insert succeeds when no row has the code (its
    createdAt is the current time); otherwise the existing row is read and
    stolen (its createdAt rewritten to now) when stale, else left alone.
  */
  function DbAcquire(rows: Rows, code: string, expiry: int, now: int): DbStep {
    if code !in rows then DbStep(true, rows[code := now])
    else if IsStale(rows[code], expiry, now) then DbStep(true, rows[code := now])
    else DbStep(false, rows)
  }

  /** `_releaseLockDb`: delete the row with the code, if any. */
  function DbRelease(rows: Rows, code: string): Rows {
    rows - {code}
  }

  /** `_checkLockExistsDb`: whether a row with the code is present. */
  function DbExists(rows: Rows, code: string): bool {
    code in rows
  }

  /** An acquire succeeds exactly when the code is free or its row is stale. */
  lemma DbAcquireDecision(rows: Rows, code: string, expiry: int, now: int)
    ensures DbAcquire(rows, code, expiry, now).acquired
            <==> code !in rows || IsStale(rows[code], expiry, now)
  {
  }

  /** Acquiring a free code inserts it with createdAt = now; no other row changes. */
  lemma DbAcquireAbsent(rows: Rows, code: string, expiry: int, now: int)
    requires code !in rows
    ensures var r := DbAcquire(rows, code, expiry, now);
      && r.acquired
      && r.rows.Keys == rows.Keys + {code}
      && r.rows[code] == now
      && forall c :: c in rows ==> r.rows[c] == rows[c]
  {
  }

  /** Acquiring a code whose row is live fails and changes nothing. */
  lemma DbAcquireLive(rows: Rows, code: string, expiry: int, now: int)
    requires code in rows && !IsStale(rows[code], expiry, now)
    ensures var r := DbAcquire(rows, code, expiry, now);
      !r.acquired && r.rows == rows
  {
  }

  /**
    Acquiring a code whose row is stale steals it: the row's createdAt
    becomes now, no row is added or removed, no other row changes.
  */
  lemma DbAcquireStale(rows: Rows, code: string, expiry: int, now: int)
    requires code in rows && IsStale(rows[code], expiry, now)
    ensures var r := DbAcquire(rows, code, expiry, now);
      && r.acquired
      && r.rows.Keys == rows.Keys
      && r.rows[code] == now
      && forall c :: c in rows && c != code ==> r.rows[c] == rows[c]
  {
  }

  /**
    Sequential mutual exclusion: with a positive expiry, a successful
    acquire is followed by a failing acquire of the same code by any caller
    using an expiry that has not yet elapsed (in particular, at the same
    instant and with the same expiry).
  */
  lemma DbAcquireExcludesUntilExpiry(rows: Rows, code: string, expiry: int, now: int, expiry': int, now': int)
    requires DbAcquire(rows, code, expiry, now).acquired
    requires now' < now + expiry'
    ensures !DbAcquire(DbAcquire(rows, code, expiry, now).rows, code, expiry', now').acquired
  {
  }

  /** Release removes the code and keeps every other row. */
  lemma DbReleaseRemoves(rows: Rows, code: string)
    ensures var r := DbRelease(rows, code);
      && code !in r
      && r.Keys == rows.Keys - {code}
      && forall c :: c in r ==> r[c] == rows[c]
  {
  }

  /** Releasing twice is releasing once; releasing a free code changes nothing. */
  lemma DbReleaseIdempotent(rows: Rows, code: string)
    ensures DbRelease(DbRelease(rows, code), code) == DbRelease(rows, code)
    ensures code !in rows ==> DbRelease(rows, code) == rows
  {
  }

  /** After a release, an acquire of the same code succeeds whatever the times. */
  lemma DbReleaseThenAcquire(rows: Rows, code: string, expiry: int, now: int)
    ensures DbAcquire(DbRelease(rows, code), code, expiry, now).acquired
  {
  }

  /**
    Exists reports presence only: it is true while the row is present even
    once the row is stale, and then an acquire succeeds by stealing.
  */
  lemma DbExistsIgnoresStaleness(rows: Rows, code: string, expiry: int, now: int)
    requires code in rows && IsStale(rows[code], expiry, now)
    ensures DbExists(rows, code)
    ensures DbAcquire(rows, code, expiry, now).acquired
  {
  }
}
