/**
  The lock-key builder of src/shared/distributedLock.js (`_generateKey`).

  The source pushes the context's tenant (when the call is tenant scoped) and
  then the raw key onto an array and joins the array with "##". JavaScript's
  `join` renders a missing (`undefined`) element as the empty string, so a
  context without a tenant contributes "" to a tenant-scoped key.
*/
module KeyBuilder {
  import opened Wrappers

  /** The separator between the parts of a lock key. */
  const Separator: string := "##"

  /** The caller's execution context; only its tenant is read here. */
  datatype Context = Context(tenant: Option<string>)

  /** How `join` renders the tenant element: a missing tenant becomes "". */
  function TenantText(tenant: Option<string>): string {
    tenant.GetOr("")
  }

  /** `parts.join(sep)`: the parts with `sep` between neighbours. */
  function Join(parts: seq<string>, sep: string): string
    decreases |parts|
  {
    if |parts| == 0 then ""
    else if |parts| == 1 then parts[0]
    else parts[0] + sep + Join(parts[1..], sep)
  }

  /** Appending a part to a non-empty list appends the separator and that part. */
  lemma {:induction false} JoinAppend(parts: seq<string>, p: string, sep: string)
    requires |parts| >= 1
    ensures Join(parts + [p], sep) == Join(parts, sep) + sep + p
    decreases |parts|
  {
    if |parts| > 1 {
      assert (parts + [p])[1..] == parts[1..] + [p];
      JoinAppend(parts[1..], p, sep);
    }
  }

  /** `_generateKey(context, tenantScoped, key)`. */
  function GenerateKey(context: Context, tenantScoped: bool, key: string): (fullKey: string)
    ensures !tenantScoped ==> fullKey == key
    ensures tenantScoped ==> fullKey == TenantText(context.tenant) + Separator + key
  {
    var keyParts := (if tenantScoped then [TenantText(context.tenant)] else []) + [key];
    assert tenantScoped ==> Join(keyParts, Separator) == keyParts[0] + Separator + Join(keyParts[1..], Separator);
    Join(keyParts, Separator)
  }

  /** The raw key always ends the full key. */
  lemma RawKeyIsSuffix(context: Context, tenantScoped: bool, key: string)
    ensures var fullKey := GenerateKey(context, tenantScoped, key);
      |key| <= |fullKey| && fullKey[|fullKey| - |key|..] == key
  {
  }

  /**
    Tenant isolation: for one raw key, two tenant-scoped keys coincide exactly
    when the tenants render to the same text. Distinct tenant names therefore
    never share a lock.
  */
  lemma TenantIsolation(c1: Context, c2: Context, key: string)
    ensures GenerateKey(c1, true, key) == GenerateKey(c2, true, key)
            <==> TenantText(c1.tenant) == TenantText(c2.tenant)
  {
    var t1, t2 := TenantText(c1.tenant), TenantText(c2.tenant);
    var s := Separator + key;
    assert GenerateKey(c1, true, key) == t1 + s;
    assert GenerateKey(c2, true, key) == t2 + s;
    if t1 + s == t2 + s {
      assert |t1| == |t2|;
      assert t1 == (t1 + s)[..|t1|];
      assert t2 == (t2 + s)[..|t2|];
    }
  }

  /** A context without a tenant and a context with the empty tenant share every scoped key. */
  lemma MissingTenantMeansEmptyTenant(key: string)
    ensures GenerateKey(Context(None), true, key) == GenerateKey(Context(Some("")), true, key)
    ensures GenerateKey(Context(None), true, key) == Separator + key
  {
  }

  /**
    Scoped and global keys share one key space: a global key that happens to
    contain a tenant and the separator names the same lock as that tenant's
    scoped key.
  */
  lemma ScopedAndGlobalKeysShareOneSpace(tenant: string, key: string)
    ensures GenerateKey(Context(Some(tenant)), true, key)
            == GenerateKey(Context(None), false, tenant + Separator + key)
  {
  }
}
