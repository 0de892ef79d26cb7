/**
Tenants by the key in a URL or by their organization, through the same kind of cache. A tenant is
used only while it is enabled and its organization is still the one it was made for.
*/
module TenantDirectory {
  import opened Optional
  import opened TimedCache

  datatype Tenant = Tenant(organizationId: string, tenantKey: string)

  datatype Row = Row(tenant: Tenant, organizationCreatedAt: Option<int>, enabled: bool)

  datatype Organization = Organization(id: string, createdAt: Option<int>)

  datatype Query = ByKey(tenantKey: string) | ByOrganization(organizationId: string)

  /**
   * What `findOne` returns; nothing is assumed of it. A lookup reads twice, so it has the tenants of
   * one moment and the organizations of a later one.
   */
  type Tenants = Query -> Option<Row>
  type Organizations = string -> Option<Organization>

  predicate KeyChar(c: char) { 'A' <= c <= 'Z' || 'a' <= c <= 'z' || '0' <= c <= '9' || c == '_' || c == '-' }

  predicate IsKey(s: string) { 1 <= |s| <= 64 && forall i :: 0 <= i < |s| ==> KeyChar(s[i]) }

  predicate InAlphabet(u: int) { 48 <= u < 58 || 65 <= u < 91 || 97 <= u < 123 || u == 45 || u == 95 }

  /** A key is 1 to 64 ASCII digits, letters, hyphens and underscores, by their code points. */
  lemma KeysAre(s: string)
    ensures IsKey(s) <==> 0 < |s| && |s| < 65 && forall c :: c in s ==> InAlphabet(c as int)
  {
    forall i | 0 <= i < |s| ensures KeyChar(s[i]) <==> InAlphabet(s[i] as int) { assert s[i] in s; }
    if forall c :: c in s ==> InAlphabet(c as int) {
      forall i | 0 <= i < |s| ensures KeyChar(s[i]) { assert s[i] in s; }
    }
  }

  predicate Matches(q: Query, t: Tenant) {
    match q
    case ByKey(k) => t.tenantKey == k
    case ByOrganization(o) => t.organizationId == o
  }

  /** The organization is there, and not a new one given the old one's ID. */
  predicate SameOrganization(later: Organizations, row: Row) {
    var org := later(row.tenant.organizationId);
    && org.Some? && org.value.id == row.tenant.organizationId
    && row.organizationCreatedAt.Some? && org.value.createdAt == row.organizationCreatedAt
  }

  function Direct(rows: Tenants, later: Organizations, q: Query): Option<Tenant> {
    var row := rows(q);
    if row.None? || !Matches(q, row.value.tenant) || !row.value.enabled || !SameOrganization(later, row.value) then None
    else Some(row.value.tenant)
  }

  /** An enabled row answers the question, and its organization is the one made at `at`. */
  predicate BoundAt(rows: Tenants, later: Organizations, q: Query, t: Tenant, at: int) {
    && rows(q) == Some(Row(t, Some(at), true))
    && later(t.organizationId) == Some(Organization(t.organizationId, Some(at)))
  }

  /**
   * A tenant is found exactly when the first read has an enabled row for the question, and the
   * second its organization, still with the creation time the tenant was bound to.
   */
  lemma FoundIff(rows: Tenants, later: Organizations, q: Query, t: Tenant)
    ensures Direct(rows, later, q) == Some(t) <==>
      Matches(q, t) && exists at :: BoundAt(rows, later, q, t, at)
  {
    if Direct(rows, later, q) == Some(t) {
      var row := rows(q).value;
      var org := later(t.organizationId).value;
      var at := row.organizationCreatedAt.value;
      assert row == Row(t, Some(at), true) && org == Organization(t.organizationId, Some(at));
      assert BoundAt(rows, later, q, t, at);
    }
  }

  datatype Cached = Cached(tenant: Option<Tenant>, expires: int)

  class Directory {
    const cacheMs: int
    var now: int
    var cache: map<Query, Cached>

    constructor (cacheMs: int, now: int)
      ensures Valid() && this.cacheMs == cacheMs && this.now == now && cache == map[]
    {
      this.cacheMs, this.now, cache := cacheMs, now, map[];
    }

    ghost predicate Valid()
      reads this
    {
      forall q :: q in cache && cache[q].tenant.Some? ==> Matches(q, cache[q].tenant.value)
    }

    method Find(q: Query, rows: Tenants, later: Organizations) returns (t: Option<Tenant>)
      requires Valid()
      modifies this`cache
      ensures Valid()
      ensures q in old(cache) && now < old(cache)[q].expires ==> t == old(cache)[q].tenant && cache == old(cache)
      ensures !(q in old(cache) && now < old(cache)[q].expires) ==> (
        && t == Direct(rows, later, q)
        && cache == (if cacheMs <= 0 then old(cache) else (if |old(cache)| >= 2000 then map[] else old(cache))[q := Cached(t, now + cacheMs)]))
      ensures t.Some? ==> Matches(q, t.value)
    {
      if q in cache && cache[q].expires > now { return cache[q].tenant; }
      var found := rows(q);
      t := None;
      if found.Some? && Matches(q, found.value.tenant) && found.value.enabled {
        if SameOrganization(later, found.value) { t := Some(found.value.tenant); }
      }
      if cacheMs > 0 {
        if |cache| >= MAX_CACHE_ENTRIES { cache := map[]; }
        cache := cache[q := Cached(t, now + cacheMs)];
      }
    }

    /** A malformed key is no tenant's, and is not looked for. */
    method FindByKey(tenantKey: string, rows: Tenants, later: Organizations) returns (t: Option<Tenant>)
      requires Valid()
      modifies this`cache
      ensures Valid() && (t.Some? ==> IsKey(tenantKey) && t.value.tenantKey == tenantKey)
      ensures !IsKey(tenantKey) ==> cache == old(cache)
      ensures IsKey(tenantKey) && !(ByKey(tenantKey) in old(cache) && now < old(cache)[ByKey(tenantKey)].expires) ==> t == Direct(rows, later, ByKey(tenantKey))
    {
      if !IsKey(tenantKey) { return None; }
      t := Find(ByKey(tenantKey), rows, later);
    }
  }
}
