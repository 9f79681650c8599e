/**
  The relational backend of src/shared/distributedLock.js: the statements
  the lock functions run against the `sap.core.EventLock` table, and the
  functions `_acquireLockDB`, `_releaseLockDb` and `_checkLockExistsDb`
  built from them. Each call is one atomic step; the per-call transaction
  and the row lock taken by the locked read are not modelled.
*/
module RelationalBackend {
  import opened Wrappers
  import opened DbSteps

  /** The EventLock table, updated in place by the statements below. */
  class EventLockTable {
    var rows: Rows

    constructor (initial: Rows)
      ensures rows == initial
    {
      rows := initial;
    }

    /**
      `INSERT.into(EventLock).entries({code})`. The statement fails on a
      duplicate code. It gives no createdAt; the table default, the current
      time, fills it in.
    */
    method Insert(code: string, now: int) returns (inserted: bool)
      modifies this
      ensures inserted <==> code !in old(rows)
      ensures rows == if inserted then old(rows)[code := now] else old(rows)
    {
      if code in rows {
        inserted := false;
      } else {
        rows := rows[code := now];
        inserted := true;
      }
    }

    /** `SELECT.one.from(EventLock).where("code =", code)`: the row's createdAt, if any. */
    method SelectOne(code: string) returns (row: Option<int>)
      ensures row.Some? <==> code in rows
      ensures row.Some? ==> row.value == rows[code]
    {
      if code in rows {
        row := Some(rows[code]);
      } else {
        row := None;
      }
    }

    /** `UPDATE EventLock SET createdAt = ... WHERE code = ...`. */
    method UpdateCreatedAt(code: string, createdAt: int)
      modifies this
      ensures rows == if code in old(rows) then old(rows)[code := createdAt] else old(rows)
    {
      if code in rows {
        rows := rows[code := createdAt];
      }
    }

    /** `DELETE.from(EventLock).where("code =", code)`. */
    method Delete(code: string)
      modifies this
      ensures rows == old(rows) - {code}
    {
      rows := rows - {code};
    }
  }

  /**
    `_acquireLockDB`: insert-or-steal. In a sequential run the insert fails
    only because the code is present, so the read that follows always finds
    the row (the source's `!currentEntry` branch would dereference the
    missing row and throw; it cannot be reached here).
  */
  method AcquireLockDb(table: EventLockTable, fullKey: string, expiryTime: int, now: int)
    returns (result: bool)
    modifies table
    ensures DbStep(result, table.rows) == DbAcquire(old(table.rows), fullKey, expiryTime, now)
  {
    var inserted := table.Insert(fullKey, now);
    if inserted {
      result := true;
    } else {
      var currentEntry := table.SelectOne(fullKey);
      match currentEntry
      case None =>
        assert false;
        result := false;
      case Some(createdAt) =>
        if IsStale(createdAt, expiryTime, now) {
          table.UpdateCreatedAt(fullKey, now);
          result := true;
        } else {
          result := false;
        }
    }
  }

  /** `_releaseLockDb`: delete the row by key. */
  method ReleaseLockDb(table: EventLockTable, fullKey: string)
    modifies table
    ensures table.rows == DbRelease(old(table.rows), fullKey)
  {
    table.Delete(fullKey);
  }

  /** `_checkLockExistsDb`: `!!result` of the one-row read. */
  method CheckLockExistsDb(table: EventLockTable, fullKey: string) returns (present: bool)
    ensures present == DbExists(table.rows, fullKey)
  {
    var result := table.SelectOne(fullKey);
    present := result.Some?;
  }
}
