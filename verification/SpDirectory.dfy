/**
Service providers by ID or entity ID: those in code first, then the stored ones, through a cache.
The database may find a row by a collation's idea of equality, or one edited by hand: nothing is
assumed of what it returns.
*/
module SpDirectory {
  import opened Optional
  import opened TimedCache

  datatype Sp = Sp(id: string, entityId: string, tenantId: string)

  /** A row's JSON, if it still makes a valid configuration. */
  datatype Row = Row(spId: string, entityId: string, tenantId: string, lookupKey: Option<LookupKey>, enabled: bool, config: Option<Sp>)

  /** A hash of tenant and entity ID, taken as injective. "" is the root identity's tenant. */
  datatype LookupKey = LookupKey(tenantId: string, entityId: string)

  datatype Query = ById(spId: string) | ByEntityId(entityId: string) | InTenant(key: LookupKey)

  /** What `findOne` returns for a query. */
  type Database = Query -> Option<Row>

  datatype Setup = Setup(inCode: seq<Sp>, tenantsOn: bool, registryOn: bool)

  function CodeById(sps: seq<Sp>, id: string): (r: Option<Sp>)
    ensures r.Some? ==> r.value in sps && r.value.id == id
    ensures r.None? ==> forall sp :: sp in sps ==> sp.id != id
  {
    if sps == [] then None else if sps[0].id == id then Some(sps[0]) else CodeById(sps[1..], id)
  }

  function CodeByEntityId(sps: seq<Sp>, entityId: string, tenantId: string): (r: Option<Sp>)
    ensures r.Some? ==> r.value in sps && r.value.entityId == entityId && r.value.tenantId == tenantId
    ensures r.None? ==> forall sp :: sp in sps ==> !(sp.entityId == entityId && sp.tenantId == tenantId)
  {
    if sps == [] then None
    else if sps[0].entityId == entityId && sps[0].tenantId == tenantId then Some(sps[0])
    else CodeByEntityId(sps[1..], entityId, tenantId)
  }

  predicate InCode(s: Setup, sp: Sp) {
    CodeById(s.inCode, sp.id).Some? || CodeByEntityId(s.inCode, sp.entityId, sp.tenantId).Some?
  }

  /** A row makes an SP while it is enabled and valid, its columns agree with it, and code has none such. */
  function FromRow(s: Setup, row: Option<Row>): (r: Option<Sp>)
    ensures r.Some? ==> row.Some? && r == row.value.config && row.value.enabled && !InCode(s, r.value)
    ensures r.Some? ==> r.value.id == row.value.spId && r.value.entityId == row.value.entityId
    ensures r.Some? && s.tenantsOn ==> r.value.tenantId == row.value.tenantId
  {
    if row.None? || !row.value.enabled || row.value.config.None? then None
    else
      var sp := row.value.config.value;
      if sp.id != row.value.spId || sp.entityId != row.value.entityId then None
      else if s.tenantsOn && row.value.tenantId != sp.tenantId then None
      else if InCode(s, sp) then None
      else Some(sp)
  }

  /** A direct read: an exact match, or nothing. */
  function Direct(s: Setup, db: Database, q: Query): Option<Sp> {
    var row := db(q);
    match q
    case ById(id) =>
      var sp := FromRow(s, row);
      if sp.Some? && sp.value.id == id then sp else None
    case ByEntityId(entityId) =>
      var sp := FromRow(s, row);
      if sp.Some? && sp.value.entityId == entityId then sp else None
    case InTenant(key) =>
      var sp := if row.Some? && row.value.lookupKey == Some(key) then FromRow(s, row) else None;
      if sp.Some? && sp.value.entityId == key.entityId && sp.value.tenantId == key.tenantId then sp else None
  }

  /**
   * Which SP a direct read gives, exactly: that of a row which is enabled, still makes a valid
   * configuration, and agrees with it and with what was asked; and which code has no SP like.
   */
  lemma DirectExactly(s: Setup, db: Database, q: Query, sp: Sp)
    ensures Direct(s, db, q) == Some(sp) <==> (
      && db(q).Some? && db(q).value.enabled && db(q).value.config == Some(sp)
      && db(q).value.spId == sp.id && db(q).value.entityId == sp.entityId && (s.tenantsOn ==> db(q).value.tenantId == sp.tenantId)
      && (forall c :: c in s.inCode ==> c.id != sp.id && !(c.entityId == sp.entityId && c.tenantId == sp.tenantId))
      && match q
        case ById(id) => sp.id == id
        case ByEntityId(entityId) => sp.entityId == entityId
        case InTenant(key) => db(q).value.lookupKey == Some(key) && sp.entityId == key.entityId && sp.tenantId == key.tenantId)
  {}

  /** Which stored SP a lookup by entity ID asks for. */
  function EntityQuery(s: Setup, entityId: string, tenantId: string): Query {
    if s.tenantsOn then InTenant(LookupKey(tenantId, entityId)) else ByEntityId(entityId)
  }

  /** The whole lookup, read directly. */
  function LookUp(s: Setup, db: Database, entityId: string, tenantId: string): Option<Sp> {
    var sp := CodeByEntityId(s.inCode, entityId, tenantId);
    if sp.Some? || !s.registryOn then sp else Direct(s, db, EntityQuery(s, entityId, tenantId))
  }

  /** The first of these with this entity ID in this tenant. */
  ghost predicate FirstOf(sps: seq<Sp>, i: nat, entityId: string, tenantId: string) {
    && i < |sps| && sps[i].entityId == entityId && sps[i].tenantId == tenantId
    && forall k :: 0 <= k < i ==> !(sps[k].entityId == entityId && sps[k].tenantId == tenantId)
  }

  lemma {:induction false} FirstInCode(sps: seq<Sp>, entityId: string, tenantId: string)
    ensures var sp := CodeByEntityId(sps, entityId, tenantId); sp.Some? ==> exists i: nat :: FirstOf(sps, i, entityId, tenantId) && sps[i] == sp.value
    decreases |sps|
  {
    if sps != [] {
      if sps[0].entityId == entityId && sps[0].tenantId == tenantId {
        assert FirstOf(sps, 0, entityId, tenantId);
      } else {
        FirstInCode(sps[1..], entityId, tenantId);
        var sp := CodeByEntityId(sps, entityId, tenantId);
        if sp.Some? {
          var i: nat :| FirstOf(sps[1..], i, entityId, tenantId) && sps[1..][i] == sp.value;
          assert forall k :: 0 < k < i + 1 ==> sps[k] == sps[1..][k - 1];
          assert FirstOf(sps, i + 1, entityId, tenantId) && sps[i + 1] == sp.value;
        }
      }
    }
  }

  /** Code's SP of this entity ID and tenant, the first of them; with none there, the stored one of them. */
  lemma LookUpExactly(s: Setup, db: Database, entityId: string, tenantId: string, sp: Sp)
    ensures LookUp(s, db, entityId, tenantId) == Some(sp) <==>
      if exists i: nat :: FirstOf(s.inCode, i, entityId, tenantId) then exists i: nat :: FirstOf(s.inCode, i, entityId, tenantId) && s.inCode[i] == sp
      else s.registryOn && Direct(s, db, if s.tenantsOn then InTenant(LookupKey(tenantId, entityId)) else ByEntityId(entityId)) == Some(sp)
  {
    hide Direct;
    FirstInCode(s.inCode, entityId, tenantId);
    assert forall i: nat, j: nat :: FirstOf(s.inCode, i, entityId, tenantId) && FirstOf(s.inCode, j, entityId, tenantId) ==> i == j;
  }

  /** The answer fits the question, whatever the database returned. */
  predicate Fits(q: Query, sp: Option<Sp>) {
    sp.Some? ==> match q
      case ById(id) => sp.value.id == id
      case ByEntityId(entityId) => sp.value.entityId == entityId
      case InTenant(key) => sp.value.entityId == key.entityId && sp.value.tenantId == key.tenantId
  }

  /** Every answer fits its question, as those of direct reads do. */
  ghost predicate Fitting(answer: Query -> Option<Sp>) { forall q :: Fits(q, answer(q)) }

  /** However the rows got there: a direct read of any database answers no other question. */
  lemma DirectReadsFit(s: Setup, db: Database)
    ensures Fitting(q => Direct(s, db, q))
  {}

  lemma {:induction false} VersionsFit(run: seq<State<Query, Option<Sp>>>, es: seq<Event<Query, Option<Sp>>>, n: nat, v: nat)
    requires IsRun(run, es) && n <= |es| && v < |run[n].versions|
    requires forall k :: 0 <= k < |es| && es[k].Write? ==> Fitting(es[k].answer)
    ensures Fitting(run[n].versions[v].answer)
  {
    if n > 0 && v < |run[n - 1].versions| { VersionsFit(run, es, n - 1, v); }
  }

  /**
   * With tenants on, a lookup at a tenant's URL yields an SP of that tenant and entity ID or none, on
   * any run of lookups, writes and invalidations: whatever rows there are, and at whatever age.
   */
  lemma NeverAnotherTenants(run: seq<State<Query, Option<Sp>>>, es: seq<Event<Query, Option<Sp>>>, i: nat)
    requires IsRun(run, es) && i < |run[|es|].answers|
    requires forall k :: 0 <= k < |es| && es[k].Write? ==> Fitting(es[k].answer)
    ensures Fits(run[|es|].answers[i].query, run[|es|].answers[i].value)
  {
    var a := run[|es|].answers[i];
    AnswersAreRecent(run, es, i);
    VersionsFit(run, es, |es|, a.version);
    assert Fits(a.query, run[|es|].versions[a.version].answer(a.query));
  }

  // ---- The directory -----------------------------------------------------------------------------

  datatype Cached = Cached(sp: Option<Sp>, expires: int)

  class Directory {
    const setup: Setup
    const cacheMs: int
    var now: int
    var cache: map<Query, Cached>

    constructor (setup: Setup, cacheMs: int, now: int)
      ensures Valid() && this.setup == setup && this.cacheMs == cacheMs && this.now == now && cache == map[]
    {
      this.setup, this.cacheMs, this.now, cache := setup, cacheMs, now, map[];
    }

    method Remember(q: Query, sp: Option<Sp>)
      modifies this`cache
      ensures cache == if cacheMs <= 0 then old(cache) else (if |old(cache)| >= 2000 then map[] else old(cache))[q := Cached(sp, now + cacheMs)]
    {
      if cacheMs <= 0 { return; }
      if |cache| >= MAX_CACHE_ENTRIES { cache := map[]; }
      cache := cache[q := Cached(sp, now + cacheMs)];
    }

    /** From the cache while it is live, else read now and remembered. */
    method Stored(q: Query, db: Database) returns (sp: Option<Sp>)
      modifies this`cache
      ensures q in old(cache) && now < old(cache)[q].expires ==> sp == old(cache)[q].sp && cache == old(cache)
      ensures !(q in old(cache) && now < old(cache)[q].expires) ==> (
        && sp == Direct(setup, db, q)
        && cache == (if cacheMs <= 0 then old(cache) else (if |old(cache)| >= 2000 then map[] else old(cache))[q := Cached(sp, now + cacheMs)]))
    {
      if q in cache && cache[q].expires > now { return cache[q].sp; }
      var row := db(q);
      if q.InTenant? {
        sp := if row.Some? && row.value.lookupKey == Some(q.key) then FromRow(setup, row) else None;
        if sp.Some? && (sp.value.entityId != q.key.entityId || sp.value.tenantId != q.key.tenantId) { sp := None; }
      } else {
        sp := FromRow(setup, row);
        if sp.Some? && (if q.ByEntityId? then sp.value.entityId != q.entityId else sp.value.id != q.spId) { sp := None; }
      }
      Remember(q, sp);
    }

    /** What is remembered fits what was asked. */
    ghost predicate Valid()
      reads this
    {
      forall q :: q in cache ==> Fits(q, cache[q].sp)
    }

    /** The SP with this entity ID in one tenant; with nothing live in the cache, the one there is now. */
    method ByEntityId(entityId: string, tenantId: string, db: Database) returns (sp: Option<Sp>)
      requires Valid()
      modifies this`cache
      ensures Valid()
      ensures var q := EntityQuery(setup, entityId, tenantId);
        !(q in old(cache) && now < old(cache)[q].expires) ==> sp == LookUp(setup, db, entityId, tenantId)
      ensures sp.Some? ==> sp.value.entityId == entityId && (setup.tenantsOn ==> sp.value.tenantId == tenantId)
    {
      sp := CodeByEntityId(setup.inCode, entityId, tenantId);
      if sp.Some? || !setup.registryOn { return; }
      var q := EntityQuery(setup, entityId, tenantId);
      assert Fits(q, Direct(setup, db, q));
      sp := Stored(q, db);
    }

    /** After a write in this isolate. */
    method Invalidate()
      modifies this`cache
      ensures Valid() && cache == map[]
    {
      cache := map[];
    }
  }
}
