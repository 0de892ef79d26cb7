/**
Stored service providers, created, changed and deleted by host managers and by administrators of
tenants. A handler reads the row it is about, checks the request against it, and writes; the steps of
several handlers interleave, and one may be lost before its write.
*/
module Registry {
  import opened Optional

  /** A validated configuration. `tenantId` "" is the root identity's tenant. */
  datatype Config = Config(
    id: string, entityId: string, tenantId: string,
    userFields: set<string>,           // user fields sent, the NameID's included
    namesOrganizations: bool,
    metadataUrl: bool,
    tokenExchange: Option<string>)     // the OAuth client that may exchange assertions

  datatype Row = Row(spId: string, entityId: string, tenantId: string, config: Config, enabled: bool)

  type Rows = map<nat, Row>

  /** A host manager (no tenants named), or an administrator of some tenants. */
  datatype Actor = Actor(tenants: Option<set<string>>)

  datatype Delegation = Delegation(userFields: set<string>, allowMetadataUrl: bool)

  datatype Setup = Setup(delegation: Delegation, inCode: set<string>, tenants: set<string>)

  datatype Request =
    | Create(config: Config, enabled: bool)
    | Toggle(spId: string, enabled: bool)
    | Update(spId: string, config: Config, enable: Option<bool>)
    | Delete(spId: string)

  /** The one write a handler makes. */
  datatype Write =
    | Insert(row: Row)
    | SetEnabled(id: nat, enabled: bool)
    | Replace(id: nat, row: Row)
    | Remove(id: nat)

  // ---- What is let through -----------------------------------------------------------------------

  predicate InScope(a: Actor, tenantId: string) { a.tenants.None? || (tenantId != "" && tenantId in a.tenants.value) }

  /** Not taken by an SP in code, nor in a tenant that does not exist. */
  predicate IsValid(s: Setup, c: Config) { c.id !in s.inCode && (c.tenantId == "" || c.tenantId in s.tenants) }

  /** What an administrator of tenants may put in an SP. `previous`: the row's token exchange. */
  predicate MayDelegate(s: Setup, a: Actor, c: Config, previous: Option<string>) {
    a.tenants.Some? ==>
      && c.tenantId != "" && c.tenantId in a.tenants.value
      && c.userFields <= s.delegation.userFields && !c.namesOrganizations
      && (c.metadataUrl ==> s.delegation.allowMetadataUrl)
      && (c.tokenExchange.Some? ==> c.tokenExchange == previous)
  }

  /** The row with this ID. */
  predicate Holds(rows: Rows, r: nat, spId: string) { r in rows && rows[r].spId == spId }

  function Written(c: Config, enabled: bool): Row { Row(c.id, c.entityId, c.tenantId, c, enabled) }

  /** What a request about row `r` is to write. */
  function Intends(s: Setup, a: Actor, rows: Rows, r: nat, q: Request): Option<Write>
    requires !q.Create? && r in rows
  {
    var row := rows[r];
    if !InScope(a, row.tenantId) then None
    else match q
      case Toggle(_, enabled) => Some(SetEnabled(r, enabled))
      case Delete(_) => Some(Remove(r))
      case Update(spId, c, enable) =>
        if c.id == spId && c.tenantId == row.tenantId && IsValid(s, c) && MayDelegate(s, a, c, row.config.tokenExchange)
        then Some(Replace(r, Written(c, if enable.Some? then enable.value else row.enabled))) else None
  }

  ghost function Found(rows: Rows, spId: string): (r: Option<nat>)
    ensures r.Some? ==> Holds(rows, r.value, spId)
    ensures r.None? ==> forall i :: !Holds(rows, i, spId)
  {
    if i :| Holds(rows, i, spId) then Some(i) else None
  }

  /** What a handler is to write once it has read `rows`; nothing if it refuses. */
  ghost function Asked(s: Setup, a: Actor, rows: Rows, q: Request): Option<Write> {
    match q
    case Create(c, enabled) => if IsValid(s, c) && MayDelegate(s, a, c, None) then Some(Insert(Written(c, enabled))) else None
    case _ =>
      var r := Found(rows, q.spId);
      if r.None? then None else Intends(s, a, rows, r.value, q)
  }

  /** The UNIQUE columns: an ID, and an entity ID within its tenant. */
  predicate Clashes(rows: Rows, except: nat, row: Row) {
    exists r :: r in rows && r != except && (rows[r].spId == row.spId || (rows[r].tenantId == row.tenantId && rows[r].entityId == row.entityId))
  }

  /** A write that the UNIQUE columns refuse. A row that is gone is not written, and nobody is told. */
  predicate Refused(rows: Rows, nextId: nat, w: Write) {
    match w
    case Insert(row) => Clashes(rows, nextId, row)
    case Replace(r, row) => r in rows && Clashes(rows, r, row)
    case _ => false
  }

  function Wrote(rows: Rows, nextId: nat, w: Write): Rows {
    if Refused(rows, nextId, w) then rows
    else match w
      case Insert(row) => rows[nextId := row]
      case SetEnabled(r, enabled) => if r in rows then rows[r := rows[r].(enabled := enabled)] else rows
      case Replace(r, row) => if r in rows then rows[r := row] else rows
      case Remove(r) => rows - {r}
  }

  // ---- Steps -------------------------------------------------------------------------------------

  /** A handler that has read and not yet written. `read`: the row as it was then. */
  datatype Pending = Pending(actor: Actor, write: Write, read: Option<Row>)

  datatype State = State(rows: Rows, nextId: nat, pending: map<nat, Pending>)

  datatype Event = Asks(pid: nat, actor: Actor, request: Request) | Writes(pid: nat) | Loses(pid: nat)

  predicate Possible(st: State, e: Event) {
    match e
    case Asks(p, _, _) => p !in st.pending
    case Writes(p) => p in st.pending
    case Loses(p) => p in st.pending
  }

  function RowOf(rows: Rows, w: Write): Option<Row> {
    if !w.Insert? && w.id in rows then Some(rows[w.id]) else None
  }

  ghost function Step(s: Setup, st: State, e: Event): State
    requires Possible(st, e)
  {
    match e
    case Asks(p, a, q) =>
      var w := Asked(s, a, st.rows, q);
      if w.None? then st else st.(pending := st.pending[p := Pending(a, w.value, RowOf(st.rows, w.value))])
    case Writes(p) =>
      var w := st.pending[p].write;
      State(Wrote(st.rows, st.nextId, w), if w.Insert? && !Refused(st.rows, st.nextId, w) then st.nextId + 1 else st.nextId, st.pending - {p})
    case Loses(p) => st.(pending := st.pending - {p})
  }

  // ---- What every step keeps ---------------------------------------------------------------------

  ghost predicate RowsOk(rows: Rows, nextId: nat) {
    && (forall r :: r in rows ==> r < nextId)
    && (forall r :: r in rows ==> rows[r] == Written(rows[r].config, rows[r].enabled))
    && (forall r, t :: r in rows && t in rows && r != t ==>
          rows[r].spId != rows[t].spId && !(rows[r].tenantId == rows[t].tenantId && rows[r].entityId == rows[t].entityId))
  }

  /** What was checked against the row read is so of the row there now. */
  ghost predicate PendingOk(st: State, p: Pending) {
    match p.write
    case Insert(row) => row == Written(row.config, row.enabled) && InScope(p.actor, row.tenantId) && (p.actor.tenants.Some? ==> row.config.tokenExchange.None?)
    case _ =>
      && p.write.id < st.nextId && p.read.Some?
      && InScope(p.actor, p.read.value.tenantId)
      && (p.write.id in st.rows ==> st.rows[p.write.id].tenantId == p.read.value.tenantId && st.rows[p.write.id].spId == p.read.value.spId)
      && (p.write.Replace? ==>
            && p.write.row == Written(p.write.row.config, p.write.row.enabled)
            && p.write.row.tenantId == p.read.value.tenantId && p.write.row.spId == p.read.value.spId
            && (p.actor.tenants.Some? && p.write.row.config.tokenExchange.Some? ==> p.write.row.config.tokenExchange == p.read.value.config.tokenExchange))
  }

  ghost predicate Inv(st: State) {
    && RowsOk(st.rows, st.nextId)
    && forall p :: p in st.pending ==> PendingOk(st, st.pending[p])
  }

  lemma WriteKeepsRows(st: State, p: nat)
    requires Inv(st) && p in st.pending
    ensures var w := st.pending[p].write; RowsOk(Wrote(st.rows, st.nextId, w), if w.Insert? && !Refused(st.rows, st.nextId, w) then st.nextId + 1 else st.nextId)
  {
    assert PendingOk(st, st.pending[p]);
  }

  lemma StepKeeps(s: Setup, st: State, e: Event)
    requires Inv(st) && Possible(st, e)
    ensures Inv(Step(s, st, e))
  {
    match e {
      case Asks(p, _, _) =>
        var st' := Step(s, st, e);
        forall o | o in st'.pending ensures PendingOk(st', st'.pending[o]) {
          if o in st.pending { assert PendingOk(st, st.pending[o]); }
        }
      case Writes(p) =>
        WriteKeepsRows(st, p);
        WriteKeepsPending(s, st, p);
      case Loses(p) =>
        forall o | o in st.pending && o != p ensures PendingOk(Step(s, st, e), st.pending[o]) { assert PendingOk(st, st.pending[o]); }
    }
  }

  lemma WriteKeepsPending(s: Setup, st: State, p: nat)
    requires Inv(st) && p in st.pending
    ensures var st' := Step(s, st, Writes(p)); forall o :: o in st'.pending ==> PendingOk(st', st'.pending[o])
  {
    var st' := Step(s, st, Writes(p));
    assert PendingOk(st, st.pending[p]);
    forall o | o in st'.pending ensures PendingOk(st', st'.pending[o]) { assert PendingOk(st, st.pending[o]); }
  }

  /** No step changes the ID or the tenant of a row. */
  lemma IdAndTenantAreFixed(s: Setup, st: State, e: Event, r: nat)
    requires Inv(st) && Possible(st, e) && r in st.rows && r in Step(s, st, e).rows
    ensures Step(s, st, e).rows[r].spId == st.rows[r].spId && Step(s, st, e).rows[r].tenantId == st.rows[r].tenantId
  {
    if e.Writes? { assert PendingOk(st, st.pending[e.pid]); }
  }

  ghost predicate SameRow(st: State, st': State, r: nat) {
    (r in st.rows <==> r in st'.rows) && (r in st.rows ==> st.rows[r] == st'.rows[r])
  }

  /** A row that a tenant administrator's write adds, changes or deletes is one of their tenants', before and after. */
  lemma DelegatedStayInScope(s: Setup, st: State, p: nat, r: nat)
    requires Inv(st) && p in st.pending && st.pending[p].actor.tenants.Some? && !SameRow(st, Step(s, st, Writes(p)), r)
    ensures r in st.rows ==> InScope(st.pending[p].actor, st.rows[r].tenantId)
    ensures var st' := Step(s, st, Writes(p)); r in st'.rows ==> InScope(st.pending[p].actor, st'.rows[r].tenantId)
  {
    assert PendingOk(st, st.pending[p]);
  }

  // ---- Who may exchange assertions -----------------------------------------------------------------

  /** Every token exchange in a row after the write was in that row before it. */
  ghost predicate GivesNoExchange(st: State, st': State) {
    forall r :: r in st'.rows && st'.rows[r].config.tokenExchange.Some? ==>
      r in st.rows && st.rows[r].config.tokenExchange == st'.rows[r].config.tokenExchange
  }

  /** The write would put back a token exchange that was read, and has been changed since. */
  predicate PutsBack(st: State, p: nat)
    requires p in st.pending
  {
    var w := st.pending[p].write;
    && w.Replace? && w.id in st.rows && !Refused(st.rows, st.nextId, w)
    && w.row.config.tokenExchange.Some? && RowOf(st.rows, w).value.config.tokenExchange != w.row.config.tokenExchange
  }

  /**
   * A tenant administrator's write gives a row no token exchange, except one the row had when it was
   * read; and so none at all if and only if the row's has not been changed in between.
   */
  lemma DelegatedGiveNoExchange(s: Setup, st: State, p: nat)
    requires Inv(st) && p in st.pending && st.pending[p].actor.tenants.Some?
    ensures GivesNoExchange(st, Step(s, st, Writes(p))) <==> !PutsBack(st, p)
    ensures PutsBack(st, p) ==>
      st.pending[p].read.Some? && st.pending[p].read.value.config.tokenExchange == st.pending[p].write.row.config.tokenExchange
      && RowOf(st.rows, st.pending[p].write).value.config.tokenExchange != st.pending[p].read.value.config.tokenExchange
  {
    assert PendingOk(st, st.pending[p]);
    var st' := Step(s, st, Writes(p));
    var w := st.pending[p].write;
    if PutsBack(st, p) { assert w.id in st'.rows; }
  }

  // ---- Whole runs ----------------------------------------------------------------------------------

  ghost predicate IsRun(s: Setup, run: seq<State>, es: seq<Event>) {
    && |run| == |es| + 1 && run[0] == State(map[], 0, map[])
    && forall i :: 0 <= i < |es| ==> Possible(run[i], es[i]) && run[i + 1] == Step(s, run[i], es[i])
  }

  lemma {:induction false} RunKeeps(s: Setup, run: seq<State>, es: seq<Event>, i: nat)
    requires IsRun(s, run, es) && i <= |es|
    ensures Inv(run[i])
  {
    if i > 0 {
      RunKeeps(s, run, es, i - 1);
      StepKeeps(s, run[i - 1], es[i - 1]);
    }
  }

  /**
   * Over any run: rows are never given out again, so a row there at two moments was there throughout,
   * with one ID and in one tenant.
   */
  lemma {:induction false} TenantIsFixed(s: Setup, run: seq<State>, es: seq<Event>, i: nat, j: nat, r: nat)
    requires IsRun(s, run, es) && i <= j <= |es| && r in run[j].rows && r < run[i].nextId
    ensures r in run[i].rows && run[i].rows[r].tenantId == run[j].rows[r].tenantId && run[i].rows[r].spId == run[j].rows[r].spId
    decreases j - i
  {
    if i < j {
      NextIdGrows(s, run, es, i, j - 1);
      FixedAt(s, run, es, j - 1, r);
      TenantIsFixed(s, run, es, i, j - 1, r);
    }
  }

  lemma FixedAt(s: Setup, run: seq<State>, es: seq<Event>, k: nat, r: nat)
    requires IsRun(s, run, es) && k < |es| && r in run[k + 1].rows && r < run[k].nextId
    ensures r in run[k].rows && run[k].rows[r].tenantId == run[k + 1].rows[r].tenantId && run[k].rows[r].spId == run[k + 1].rows[r].spId
  {
    RunKeeps(s, run, es, k);
    FixedOnce(s, run[k], es[k], r);
  }

  lemma FixedOnce(s: Setup, st: State, e: Event, r: nat)
    requires Inv(st) && Possible(st, e) && r in Step(s, st, e).rows && r < st.nextId
    ensures r in st.rows && Step(s, st, e).rows[r].spId == st.rows[r].spId && Step(s, st, e).rows[r].tenantId == st.rows[r].tenantId
  {
    NothingComesBack(s, st, e, r);
    IdAndTenantAreFixed(s, st, e, r);
  }

  lemma NothingComesBack(s: Setup, st: State, e: Event, r: nat)
    requires Inv(st) && Possible(st, e) && r in Step(s, st, e).rows && r != st.nextId
    ensures r in st.rows
  {}

  lemma {:induction false} NextIdGrows(s: Setup, run: seq<State>, es: seq<Event>, i: nat, j: nat)
    requires IsRun(s, run, es) && i <= j <= |es|
    ensures run[i].nextId <= run[j].nextId
    decreases j - i
  {
    if i < j { NextIdGrows(s, run, es, i, j - 1); }
  }

  /** Event `i` is a tenant administrator's write. */
  predicate IsDelegated(run: seq<State>, es: seq<Event>, i: nat)
    requires |run| == |es| + 1
  {
    i < |es| && es[i].Writes? && es[i].pid in run[i].pending && run[i].pending[es[i].pid].actor.tenants.Some?
  }

  /** It gives a row a token exchange. */
  ghost predicate GivesOne(run: seq<State>, es: seq<Event>, i: nat)
    requires |run| == |es| + 1
  {
    IsDelegated(run, es, i) && !GivesNoExchange(run[i], run[i + 1])
  }

  predicate PutsOneBack(run: seq<State>, es: seq<Event>, i: nat)
    requires |run| == |es| + 1
  {
    IsDelegated(run, es, i) && PutsBack(run[i], es[i].pid)
  }

  lemma GivesByPuttingBack(s: Setup, run: seq<State>, es: seq<Event>, i: nat)
    requires IsRun(s, run, es)
    ensures GivesOne(run, es, i) <==> PutsOneBack(run, es, i)
  {
    if IsDelegated(run, es, i) {
      RunKeeps(s, run, es, i);
      DelegatedGiveNoExchange(s, run[i], es[i].pid);
    }
  }

  /**
   * Over any run: no tenant administrator's write gives a row a token exchange if and only if none puts
   * back one that was changed since it was read.
   */
  lemma DelegatedGiveNone(s: Setup, run: seq<State>, es: seq<Event>)
    requires IsRun(s, run, es)
    ensures (forall i: nat :: !GivesOne(run, es, i)) <==> (forall i: nat :: !PutsOneBack(run, es, i))
  {
    forall i: nat ensures GivesOne(run, es, i) <==> PutsOneBack(run, es, i) { GivesByPuttingBack(s, run, es, i); }
  }

  /** Event `i` is a host manager's write of this token exchange into row `r`. */
  ghost predicate Gives(run: seq<State>, es: seq<Event>, i: nat, r: nat, exchange: Option<string>)
    requires |run| == |es| + 1
  {
    && i < |es| && es[i].Writes? && es[i].pid in run[i].pending && run[i].pending[es[i].pid].actor.tenants.None?
    && var w := run[i].pending[es[i].pid].write;
      !Refused(run[i].rows, run[i].nextId, w) && ((w.Insert? && r == run[i].nextId) || (w.Replace? && r == w.id)) && w.row.config.tokenExchange == exchange
  }

  ghost predicate WasGiven(run: seq<State>, es: seq<Event>, n: nat, r: nat, exchange: Option<string>)
    requires |run| == |es| + 1
  {
    exchange.Some? ==> exists i :: 0 <= i < n && Gives(run, es, i, r, exchange)
  }

  /** The token exchanges there are, and those that handlers under way have read, were given. */
  ghost predicate AllGiven(run: seq<State>, es: seq<Event>, n: nat)
    requires |run| == |es| + 1 && n <= |es|
  {
    && (forall r :: r in run[n].rows ==> WasGiven(run, es, n, r, run[n].rows[r].config.tokenExchange))
    && (forall p :: p in run[n].pending ==> ReadWasGiven(run, es, n, run[n].pending[p]))
  }

  ghost predicate ReadWasGiven(run: seq<State>, es: seq<Event>, n: nat, q: Pending)
    requires |run| == |es| + 1
  {
    !q.write.Insert? && q.read.Some? ==> WasGiven(run, es, n, q.write.id, q.read.value.config.tokenExchange)
  }

  lemma GivenOn(run: seq<State>, es: seq<Event>, n: nat, r: nat, exchange: Option<string>)
    requires |run| == |es| + 1 && WasGiven(run, es, n, r, exchange)
    ensures WasGiven(run, es, n + 1, r, exchange)
  {
    if exchange.Some? {
      var i :| 0 <= i < n && Gives(run, es, i, r, exchange);
      assert 0 <= i < n + 1;
    }
  }

  lemma RowsGiven(s: Setup, run: seq<State>, es: seq<Event>, n: nat, r: nat)
    requires IsRun(s, run, es) && n < |es| && Inv(run[n]) && AllGiven(run, es, n) && r in run[n + 1].rows
    ensures WasGiven(run, es, n + 1, r, run[n + 1].rows[r].config.tokenExchange)
  {
    var st, e := run[n], es[n];
    var exchange := run[n + 1].rows[r].config.tokenExchange;
    if e.Writes? && Gives(run, es, n, r, exchange) {
      assert 0 <= n < n + 1;
    } else {
      assert e.Writes? ==> PendingOk(st, st.pending[e.pid]);
      if exchange.Some? { GivenOn(run, es, n, r, exchange); }
    }
  }

  lemma ReadsGiven(s: Setup, run: seq<State>, es: seq<Event>, n: nat, p: nat)
    requires IsRun(s, run, es) && n < |es| && AllGiven(run, es, n) && p in run[n + 1].pending
    ensures ReadWasGiven(run, es, n + 1, run[n + 1].pending[p])
  {
    var q := run[n + 1].pending[p];
    if p in run[n].pending {
      assert ReadWasGiven(run, es, n, q);
    } else {
      assert q.read == RowOf(run[n].rows, q.write);
    }
    if !q.write.Insert? && q.read.Some? { GivenOn(run, es, n, q.write.id, q.read.value.config.tokenExchange); }
  }

  lemma {:induction false} ExchangesWereGiven(s: Setup, run: seq<State>, es: seq<Event>, n: nat)
    requires IsRun(s, run, es) && n <= |es|
    ensures AllGiven(run, es, n)
  {
    if n > 0 {
      ExchangesWereGiven(s, run, es, n - 1);
      RunKeeps(s, run, es, n - 1);
      forall r | r in run[n].rows ensures WasGiven(run, es, n, r, run[n].rows[r].config.tokenExchange) { RowsGiven(s, run, es, n - 1, r); }
      forall p | p in run[n].pending ensures ReadWasGiven(run, es, n, run[n].pending[p]) { ReadsGiven(s, run, es, n - 1, p); }
    }
  }

  /** Over any run: each token exchange a row has was written into that row by a host manager. */
  lemma ManagersGiveExchanges(s: Setup, run: seq<State>, es: seq<Event>, n: nat, r: nat)
    requires IsRun(s, run, es) && n <= |es| && r in run[n].rows && run[n].rows[r].config.tokenExchange.Some?
    ensures exists i :: 0 <= i < n && Gives(run, es, i, r, run[n].rows[r].config.tokenExchange)
  {
    ExchangesWereGiven(s, run, es, n);
  }

  lemma Extend(s: Setup, run: seq<State>, es: seq<Event>, e: Event) returns (run': seq<State>, es': seq<Event>)
    requires IsRun(s, run, es) && Possible(run[|es|], e)
    ensures IsRun(s, run', es') && run'[|es'|] == Step(s, run[|es|], e)
  {
    run', es' := run + [Step(s, run[|es|], e)], es + [e];
  }

  const MANAGER := Actor(None)

  /** A row that its tenant's administrator is about to write again as it was read. */
  lemma AboutToPutBack(s: Setup, c: Config, admin: Actor) returns (run: seq<State>, es: seq<Event>)
    requires IsValid(s, c) && admin.tenants.Some? && MayDelegate(s, admin, c, c.tokenExchange)
    ensures IsRun(s, run, es)
    ensures run[|es|] == State(map[0 := Written(c, true)], 1, map[1 := Pending(admin, Replace(0, Written(c, true)), Some(Written(c, true)))])
  {
    run, es := [State(map[], 0, map[])], [];
    run, es := Extend(s, run, es, Asks(0, MANAGER, Create(c, true)));
    run, es := Extend(s, run, es, Writes(0));
    assert run[|es|] == State(map[0 := Written(c, true)], 1, map[]);
    assert Holds(run[|es|].rows, 0, c.id);
    run, es := Extend(s, run, es, Asks(1, admin, Update(c.id, c, None)));
  }

  /**
   * A tenant's administrator gives a token exchange after all: a host manager takes it away between
   * that administrator's read and write.
   */
  lemma PutBack(s: Setup, c: Config, admin: Actor) returns (run: seq<State>, es: seq<Event>)
    requires IsValid(s, c) && admin.tenants.Some? && MayDelegate(s, admin, c, c.tokenExchange) && c.tokenExchange.Some?
    ensures IsRun(s, run, es) && 1 in run[|es|].pending && run[|es|].pending[1].actor == admin
    ensures 0 in run[|es|].rows && run[|es|].rows[0].config.tokenExchange.None?
    ensures 0 in Step(s, run[|es|], Writes(1)).rows && Step(s, run[|es|], Writes(1)).rows[0].config.tokenExchange == c.tokenExchange
  {
    run, es := AboutToPutBack(s, c, admin);
    assert Holds(run[|es|].rows, 0, c.id);
    run, es := Extend(s, run, es, Asks(2, MANAGER, Update(c.id, c.(tokenExchange := None), None)));
    run, es := Extend(s, run, es, Writes(2));
  }

  // ---- What is let through, and what it writes ------------------------------------------------------

  /** An SP that may be written: by anyone, and by an administrator of tenants what that is delegated. */
  ghost predicate MayBe(s: Setup, a: Actor, c: Config, exchange: Option<string>) {
    && c.id !in s.inCode && (c.tenantId != "" ==> c.tenantId in s.tenants)
    && (a.tenants.Some? ==>
          && c.tenantId != "" && c.tenantId in a.tenants.value
          && (forall f :: f in c.userFields ==> f in s.delegation.userFields)
          && !c.namesOrganizations && (c.metadataUrl ==> s.delegation.allowMetadataUrl)
          && (c.tokenExchange == None || c.tokenExchange == exchange))
  }

  /** The row with this ID, of a tenant the actor may manage. */
  ghost predicate Manages(a: Actor, rows: Rows, r: nat, spId: string) {
    r in rows && rows[r].spId == spId && (a.tenants.Some? ==> rows[r].tenantId != "" && rows[r].tenantId in a.tenants.value)
  }

  /** Exactly which requests are let through, and what each is to write. */
  lemma AskedExactly(s: Setup, a: Actor, rows: Rows, nextId: nat, q: Request, w: Write)
    requires RowsOk(rows, nextId)
    ensures Asked(s, a, rows, q) == Some(w) <==> match q
      case Create(c, enabled) => w == Insert(Row(c.id, c.entityId, c.tenantId, c, enabled)) && MayBe(s, a, c, None)
      case Toggle(spId, enabled) => w.SetEnabled? && w.enabled == enabled && Manages(a, rows, w.id, spId)
      case Delete(spId) => w.Remove? && Manages(a, rows, w.id, spId)
      case Update(spId, c, enable) =>
        && w.Replace? && Manages(a, rows, w.id, spId)
        && c.id == spId && c.tenantId == rows[w.id].tenantId && MayBe(s, a, c, rows[w.id].config.tokenExchange)
        && w.row == Row(c.id, c.entityId, c.tenantId, c, if enable == None then rows[w.id].enabled else enable.value)
  {
    if !q.Create? {
      forall r: nat | Holds(rows, r, q.spId) ensures Found(rows, q.spId) == Some(r) { FoundIs(rows, nextId, q.spId, r); }
      if w.SetEnabled? || w.Remove? || w.Replace? { assert Manages(a, rows, w.id, q.spId) ==> Holds(rows, w.id, q.spId); }
    }
  }

  /** Another row has the ID that is to be written, or the entity ID in its tenant. */
  ghost predicate Taken(rows: Rows, at: nat, row: Row) {
    exists r :: r in rows && r != at && (rows[r].spId == row.spId || (rows[r].tenantId == row.tenantId && rows[r].entityId == row.entityId))
  }

  /** What a write changes, row by row: the one it is about, unless what it writes is taken; no other. */
  lemma WritesExactly(s: Setup, st: State, p: nat, i: nat)
    requires Inv(st) && p in st.pending
    ensures var w, rows := st.pending[p].write, Step(s, st, Writes(p)).rows;
      var added := w.Insert? && i == st.nextId && !Taken(st.rows, i, w.row);
      && (i in rows <==> added || (i in st.rows && w != Remove(i)))
      && (i in rows && (added || (w.Replace? && w.id == i && !Taken(st.rows, i, w.row))) ==> rows[i] == w.row)
      && (i in rows && w.SetEnabled? && w.id == i ==> rows[i] == st.rows[i].(enabled := w.enabled))
      && (i in rows && !added && !(w.SetEnabled? && w.id == i) && !(w.Replace? && w.id == i && !Taken(st.rows, i, w.row)) ==> rows[i] == st.rows[i])
    ensures p !in Step(s, st, Writes(p)).pending && forall o :: o in st.pending && o != p ==> o in Step(s, st, Writes(p)).pending
  {}

  /** What was checked of a configuration stays with it until it is written. */
  ghost predicate WritesChecked(s: Setup, st: State) {
    && (forall r :: r in st.rows ==> MayBe(s, MANAGER, st.rows[r].config, None))
    && (forall p :: p in st.pending ==> PendingChecked(s, st.pending[p]))
  }

  ghost predicate PendingChecked(s: Setup, p: Pending) {
    match p.write
    case Insert(row) => MayBe(s, p.actor, row.config, None)
    case Replace(_, row) => p.read.Some? && MayBe(s, p.actor, row.config, p.read.value.config.tokenExchange)
    case _ => true
  }

  lemma StepChecked(s: Setup, st: State, e: Event)
    requires Inv(st) && WritesChecked(s, st) && Possible(st, e)
    ensures WritesChecked(s, Step(s, st, e))
  {
    var st' := Step(s, st, e);
    if e.Asks? {
      var w := Asked(s, e.actor, st.rows, e.request);
      if w.Some? { AskedExactly(s, e.actor, st.rows, st.nextId, e.request, w.value); }
    } else if e.Writes? {
      assert PendingChecked(s, st.pending[e.pid]);
      forall r | r in st'.rows ensures MayBe(s, MANAGER, st'.rows[r].config, None) { WritesExactly(s, st, e.pid, r); }
    }
  }

  /**
   * Over any run of interleaved handlers: every row has an ID that code does not take and a tenant
   * that there is; and what a tenant's administrator writes is an SP of that administrator's tenants,
   * with only the user fields delegated, no organizations, and a metadata URL only where that is.
   */
  lemma {:induction false} DelegatedAsChecked(s: Setup, run: seq<State>, es: seq<Event>, n: nat)
    requires IsRun(s, run, es) && n <= |es|
    ensures WritesChecked(s, run[n])
    ensures forall r :: r in run[n].rows ==> run[n].rows[r].spId !in s.inCode && (run[n].rows[r].tenantId != "" ==> run[n].rows[r].tenantId in s.tenants)
  {
    if n > 0 {
      DelegatedAsChecked(s, run, es, n - 1);
      RunKeeps(s, run, es, n - 1);
      StepChecked(s, run[n - 1], es[n - 1]);
    }
    RunKeeps(s, run, es, n);
  }

  // ---- The endpoints, one request at a time --------------------------------------------------------

  /** A request with no other about: whether it is let through, and the rows it leaves. */
  ghost predicate Ran(s: Setup, st: State, a: Actor, q: Request, st': State, ok: bool) {
    var w := Asked(s, a, st.rows, q);
    && (ok <==> w.Some? && !Refused(st.rows, st.nextId, w.value))
    && st' == if w.None? then st else Step(s, st.(pending := map[0 := Pending(a, w.value, RowOf(st.rows, w.value))]), Writes(0))
  }

  /** Its read and its write are the steps of a run. */
  lemma RanIsSteps(s: Setup, st: State, a: Actor, q: Request, st': State, ok: bool)
    requires st.pending == map[] && Ran(s, st, a, q, st', ok)
    ensures var asked := Step(s, st, Asks(0, a, q)); st' == if 0 in asked.pending then Step(s, asked, Writes(0)) else asked
  {}

  lemma FoundIs(rows: Rows, nextId: nat, spId: string, r: nat)
    requires RowsOk(rows, nextId) && Holds(rows, r, spId)
    ensures Found(rows, spId) == Some(r)
  {}

  class Endpoints {
    const setup: Setup
    var rows: Rows
    var nextId: nat

    constructor (setup: Setup)
      ensures View() == State(map[], 0, map[]) && Valid() && this.setup == setup
    {
      this.setup, rows, nextId := setup, map[], 0;
    }

    ghost function View(): State
      reads this
    {
      State(rows, nextId, map[])
    }

    ghost predicate Valid()
      reads this
    {
      RowsOk(rows, nextId)
    }

    method FindRow(spId: string) returns (r: Option<nat>)
      requires Valid()
      ensures r == Found(rows, spId)
      ensures r.Some? ==> Holds(rows, r.value, spId)
    {
      if i :| i in rows && rows[i].spId == spId {
        FoundIs(rows, nextId, spId, i);
        return Some(i);
      }
      r := None;
    }

    method CreateServiceProvider(a: Actor, c: Config, enabled: bool) returns (ok: bool)
      requires Valid()
      modifies this
      ensures Valid() && Ran(setup, old(View()), a, Create(c, enabled), View(), ok)
    {
      if a.tenants.Some? && !(c.tenantId != "" && c.tenantId in a.tenants.value) { return false; }
      if !IsValid(setup, c) || !MayDelegate(setup, a, c, None) { return false; }
      if Clashes(rows, nextId, Written(c, enabled)) { return false; }
      rows, nextId := rows[nextId := Written(c, enabled)], nextId + 1;
      ok := true;
    }

    /** Switches a row on or off, without looking at its configuration. */
    method ToggleServiceProvider(a: Actor, spId: string, enabled: bool) returns (ok: bool)
      requires Valid()
      modifies this`rows
      ensures Valid() && Ran(setup, old(View()), a, Toggle(spId, enabled), View(), ok)
    {
      var r := FindRow(spId);
      if r.None? { return false; }
      if !InScope(a, rows[r.value].tenantId) { return false; }
      rows := rows[r.value := rows[r.value].(enabled := enabled)];
      ok := true;
    }

    method UpdateServiceProvider(a: Actor, spId: string, c: Config, enable: Option<bool>) returns (ok: bool)
      requires Valid()
      modifies this`rows
      ensures Valid() && Ran(setup, old(View()), a, Update(spId, c, enable), View(), ok)
    {
      var found := FindRow(spId);
      if found.None? { return false; }
      var r := found.value;
      var row := rows[r];
      if !InScope(a, row.tenantId) { return false; }
      if c.id != spId { return false; }
      if c.tenantId != row.tenantId { return false; }
      if a.tenants.Some? && !(c.tenantId != "" && c.tenantId in a.tenants.value) { return false; }
      if !IsValid(setup, c) { return false; }
      if !MayDelegate(setup, a, c, row.config.tokenExchange) { return false; }
      var next := Written(c, if enable.Some? then enable.value else row.enabled);
      if Clashes(rows, r, next) { return false; }
      rows := rows[r := next];
      ok := true;
    }

    method DeleteServiceProvider(a: Actor, spId: string) returns (ok: bool)
      requires Valid()
      modifies this`rows
      ensures Valid() && Ran(setup, old(View()), a, Delete(spId), View(), ok)
      ensures ok ==> forall i :: i in rows ==> rows[i].spId != spId
    {
      var r := FindRow(spId);
      if r.None? { return false; }
      if !InScope(a, rows[r.value].tenantId) { return false; }
      rows := rows - {r.value};
      ok := true;
    }
  }
}
