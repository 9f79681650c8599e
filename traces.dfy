/**
  Sequences of lock calls run against each backend's step semantics, and
  what holds over whole runs: on either backend a lock stays held until it
  is released or its expiry elapses, and the two backends, started on
  mirroring states, give the same answers to acquire and release when every
  acquire uses one positive expiry.
*/
module Traces {
  import opened KeyBuilder
  import opened DbSteps
  import opened CacheSteps

  /** One call on a full key. */
  datatype Call =
    | Acquire(key: string, expiry: int, now: int)
    | Release(key: string)
    | Exists(key: string, now: int)

  /** The answer to one call, for either backend. */
  datatype Reply = Acquired(ok: bool) | Released | Present(present: bool) | Failed(error: CacheError)

  /** The replies of a run and the state after it. */
  datatype Run<S> = Run(replies: seq<Reply>, state: S)

  /** The reply has the shape the call asks for. */
  predicate Answers(call: Call, reply: Reply) {
    match call
    case Acquire(_, _, _) => reply.Acquired? || reply.Failed?
    case Release(_) => reply.Released?
    case Exists(_, _) => reply.Present?
  }

  function DbCall(rows: Rows, call: Call): (Reply, Rows) {
    match call
    case Acquire(k, e, n) =>
      var s := DbAcquire(rows, k, e, n);
      (Acquired(s.acquired), s.rows)
    case Release(k) => (Released, DbRelease(rows, k))
    case Exists(k, _) => (Present(DbExists(rows, k)), rows)
  }

  function CacheCall(store: Store, call: Call): (Reply, Store) {
    match call
    case Acquire(k, e, n) =>
      var s := CacheSetNx(store, k, e, n);
      (if s.reply.Success? then Acquired(s.reply.value) else Failed(s.reply.error), s.store)
    case Release(k) => (Released, CacheDel(store, k))
    case Exists(k, n) => (Present(CacheGet(store, k, n).Some?), store)
  }

  /** The calls run one after another on the lock table; the relational backend never fails. */
  function RunDb(rows: Rows, calls: seq<Call>): (r: Run<Rows>)
    ensures |r.replies| == |calls|
    ensures forall i :: 0 <= i < |calls| ==> Answers(calls[i], r.replies[i]) && !r.replies[i].Failed?
    decreases |calls|
  {
    if calls == [] then Run([], rows)
    else
      var (reply, rows') := DbCall(rows, calls[0]);
      var rest := RunDb(rows', calls[1..]);
      Run([reply] + rest.replies, rest.state)
  }

  /** The calls run one after another on the cache key space. */
  function RunCache(store: Store, calls: seq<Call>): (r: Run<Store>)
    ensures |r.replies| == |calls|
    ensures forall i :: 0 <= i < |calls| ==> Answers(calls[i], r.replies[i])
    decreases |calls|
  {
    if calls == [] then Run([], store)
    else
      var (reply, store') := CacheCall(store, calls[0]);
      var rest := RunCache(store', calls[1..]);
      Run([reply] + rest.replies, rest.state)
  }

  /**
    The call leaves a lock on `code` taken at `t0` alone: it does not
    release `code`, and if it acquires `code` its expiry has not elapsed.
  */
  predicate Respects(call: Call, code: string, t0: int) {
    match call
    case Acquire(k, e, n) => k == code ==> n < t0 + e
    case Release(k) => k != code
    case Exists(_, _) => true
  }

  /**
    Relational backend, over a whole run: while no call releases `code` and
    every acquire of it comes before its caller's expiry has elapsed since
    `t0`, the row keeps createdAt = t0 and every such acquire fails.
  */
  lemma {:induction false} DbHeldUntilReleaseOrExpiry(rows: Rows, calls: seq<Call>, code: string, t0: int)
    requires code in rows && rows[code] == t0
    requires forall i :: 0 <= i < |calls| ==> Respects(calls[i], code, t0)
    ensures var r := RunDb(rows, calls);
      && code in r.state && r.state[code] == t0
      && forall i :: 0 <= i < |calls| && calls[i].Acquire? && calls[i].key == code ==>
           r.replies[i] == Acquired(false)
    decreases |calls|
  {
    if calls != [] {
      var (reply, rows') := DbCall(rows, calls[0]);
      assert code in rows' && rows'[code] == t0;
      assert calls[0].Acquire? && calls[0].key == code ==> reply == Acquired(false);
      forall i | 0 <= i < |calls[1..]|
        ensures Respects(calls[1..][i], code, t0)
      {
        assert calls[1..][i] == calls[i + 1];
      }
      DbHeldUntilReleaseOrExpiry(rows', calls[1..], code, t0);
      var r := RunDb(rows, calls);
      var rest := RunDb(rows', calls[1..]);
      assert r.replies == [reply] + rest.replies;
      forall i | 0 < i < |calls| && calls[i].Acquire? && calls[i].key == code
        ensures r.replies[i] == Acquired(false)
      {
        assert calls[1..][i - 1] == calls[i];
        assert r.replies[i] == rest.replies[i - 1];
      }
    }
  }

  /**
    Mutual exclusion over a run: after a successful acquire of `code` at
    `t0`, every later acquire of `code` fails for as long as no call
    releases it and the acquirer's expiry has not elapsed since `t0`.
  */
  lemma AcquiredLockExcludes(rows: Rows, code: string, e0: int, t0: int, calls: seq<Call>)
    requires DbAcquire(rows, code, e0, t0).acquired
    requires forall i :: 0 <= i < |calls| ==> Respects(calls[i], code, t0)
    ensures var r := RunDb(rows, [Acquire(code, e0, t0)] + calls);
      && r.replies[0] == Acquired(true)
      && forall i :: 1 <= i <= |calls| && calls[i - 1].Acquire? && calls[i - 1].key == code ==>
           r.replies[i] == Acquired(false)
  {
    var all := [Acquire(code, e0, t0)] + calls;
    var rows1 := DbAcquire(rows, code, e0, t0).rows;
    assert all[1..] == calls;
    DbHeldUntilReleaseOrExpiry(rows1, calls, code, t0);
    var r := RunDb(rows, all);
    var rest := RunDb(rows1, calls);
    assert r.replies == [Acquired(true)] + rest.replies;
    forall i | 1 <= i <= |calls| && calls[i - 1].Acquire? && calls[i - 1].key == code
      ensures r.replies[i] == Acquired(false)
    {
      assert r.replies[i] == rest.replies[i - 1];
    }
  }

  /**
    The call leaves the cache entry of `code`, live until `expireAt`, alone:
    it does not release `code`, and if it acquires `code` it comes before
    `expireAt`.
  */
  predicate CacheRespects(call: Call, code: string, expireAt: int) {
    match call
    case Acquire(k, _, n) => k == code ==> n < expireAt
    case Release(k) => k != code
    case Exists(_, _) => true
  }

  /**
    Cache backend, over a whole run: while no call releases `code` and every
    acquire of it comes before the entry's expiry instant, the entry stays
    as it is and no such acquire succeeds (each is refused, or rejected for
    a non-positive ttl).
  */
  lemma {:induction false} CacheHeldUntilReleaseOrExpiry(store: Store, calls: seq<Call>, code: string)
    requires code in store
    requires forall i :: 0 <= i < |calls| ==> CacheRespects(calls[i], code, store[code].expireAt)
    ensures var r := RunCache(store, calls);
      && code in r.state && r.state[code] == store[code]
      && forall i :: 0 <= i < |calls| && calls[i].Acquire? && calls[i].key == code ==>
           r.replies[i] != Acquired(true)
    decreases |calls|
  {
    if calls != [] {
      var x := store[code].expireAt;
      var (reply, store') := CacheCall(store, calls[0]);
      assert code in store' && store'[code] == store[code];
      assert calls[0].Acquire? && calls[0].key == code ==> reply != Acquired(true);
      forall i | 0 <= i < |calls[1..]|
        ensures CacheRespects(calls[1..][i], code, x)
      {
        assert calls[1..][i] == calls[i + 1];
      }
      CacheHeldUntilReleaseOrExpiry(store', calls[1..], code);
      var r := RunCache(store, calls);
      var rest := RunCache(store', calls[1..]);
      assert r.replies == [reply] + rest.replies;
      forall i | 0 < i < |calls| && calls[i].Acquire? && calls[i].key == code
        ensures r.replies[i] != Acquired(true)
      {
        assert calls[1..][i - 1] == calls[i];
        assert r.replies[i] == rest.replies[i - 1];
      }
    }
  }

  /**
    The cache key space mirrors the lock table for one expiry `e`: the same
    keys, each holding "true" until its row's createdAt + e.
  */
  predicate Mirrors(rows: Rows, store: Store, e: int) {
    && rows.Keys == store.Keys
    && forall k :: k in rows ==> store[k] == Entry(HeldValue, rows[k] + e)
  }

  /** Every acquire in the run uses expiry `e`. */
  predicate UsesExpiry(calls: seq<Call>, e: int) {
    forall i :: 0 <= i < |calls| && calls[i].Acquire? ==> calls[i].expiry == e
  }

  /**
    The two backends implement one contract: started on mirroring states
    and driven with one positive expiry, they give the same reply to every
    acquire and release and end in mirroring states. For existence they
    differ in one direction only: whenever the cache reports a key present,
    the table does too, but the table also reports stale rows.
  */
  lemma {:induction false} BackendsAgree(rows: Rows, store: Store, calls: seq<Call>, e: int)
    requires e > 0 && Mirrors(rows, store, e) && UsesExpiry(calls, e)
    ensures var d, c := RunDb(rows, calls), RunCache(store, calls);
      && Mirrors(d.state, c.state, e)
      && (forall i :: 0 <= i < |calls| && !calls[i].Exists? ==> d.replies[i] == c.replies[i])
      && (forall i :: 0 <= i < |calls| && calls[i].Exists? && c.replies[i].present ==> d.replies[i].present)
    decreases |calls|
  {
    if calls != [] {
      var (dr, rows') := DbCall(rows, calls[0]);
      var (cr, store') := CacheCall(store, calls[0]);
      match calls[0] {
        case Acquire(_, _, _) =>
          assert dr == cr;
          assert Mirrors(rows', store', e);
        case Release(_) =>
          assert Mirrors(rows', store', e);
        case Exists(_, _) =>
          assert cr.present ==> dr.present;
      }
      assert UsesExpiry(calls[1..], e) by {
        forall i | 0 <= i < |calls[1..]| && calls[1..][i].Acquire?
          ensures calls[1..][i].expiry == e
        {
          assert calls[1..][i] == calls[i + 1];
        }
      }
      BackendsAgree(rows', store', calls[1..], e);
      var d, c := RunDb(rows, calls), RunCache(store, calls);
      var dRest, cRest := RunDb(rows', calls[1..]), RunCache(store', calls[1..]);
      assert d.replies == [dr] + dRest.replies;
      assert c.replies == [cr] + cRest.replies;
      forall i | 0 < i < |calls|
        ensures d.replies[i] == dRest.replies[i - 1] && c.replies[i] == cRest.replies[i - 1]
        ensures calls[i] == calls[1..][i - 1]
      {
      }
    }
  }

  /**
    Tenant isolation at the lock level: with tenant-scoped keys, an acquire
    under one tenant does not change the outcome of an acquire of the same
    raw key under a differently named tenant, and leaves that tenant's row
    untouched.
  */
  lemma TenantsLockIndependently(rows: Rows, a: Context, b: Context, key: string, e: int, now: int, e': int, now': int)
    requires TenantText(a.tenant) != TenantText(b.tenant)
    ensures var ka, kb := GenerateKey(a, true, key), GenerateKey(b, true, key);
      var after := DbAcquire(rows, ka, e, now).rows;
      && (kb in after <==> kb in rows)
      && (kb in rows ==> after[kb] == rows[kb])
      && DbAcquire(after, kb, e', now').acquired == DbAcquire(rows, kb, e', now').acquired
  {
    TenantIsolation(a, b, key);
  }
}
