/**
Tenants and the keys that name them in URLs and entity IDs. Service providers pin a tenant's key, so
a deleted tenant's key must never name another. Creates and deletes run at once, each a sequence of
database calls, and any of them may be lost between two.
*/
module TenantRetirement {

  type Key = string
  type Organization = string

  datatype Tenant = Tenant(org: Organization, key: Key)

  /** How far a request has come. `id`: the row it has inserted, or is about to delete. */
  datatype Process =
    | Creating(tenant: Tenant)                    // not looked for a retired key yet
    | Inserting(tenant: Tenant)                   // looked: the key was not retired
    | LookingAgain(tenant: Tenant, id: nat)       // inserted
    | Undoing(tenant: Tenant, id: nat)
    | StoringKey(tenant: Tenant, id: nat)         // looked again: still not retired
    | Deleting(tenant: Tenant, id: nat)           // found the row, no SP in it
    | Retired(tenant: Tenant, id: nat)            // its key is retired

  datatype State = State(
    tenants: map<nat, Tenant>,
    retired: set<Key>,
    processes: map<nat, Process>,
    created: map<nat, Tenant>,     // rows whose create was answered with success
    nextId: nat)

  datatype Event =
    | Begin(pid: nat, tenant: Tenant)
    | Check(pid: nat)
    | Insert(pid: nat)
    | CheckAgain(pid: nat)
    | Undo(pid: nat)
    | StoreKey(pid: nat, ok: bool)
    | Find(pid: nat, id: nat, hasProviders: bool)
    | Retire(pid: nat)
    | Remove(pid: nat)
    | Lose(pid: nat)

  /** The UNIQUE columns: no two tenants of one organization, nor of one key. */
  predicate Taken(tenants: map<nat, Tenant>, t: Tenant) {
    exists id :: id in tenants && (tenants[id].org == t.org || tenants[id].key == t.key)
  }

  predicate Possible(s: State, e: Event) {
    match e
    case Begin(p, _) => p !in s.processes
    case Check(p) => p in s.processes && s.processes[p].Creating?
    case Insert(p) => p in s.processes && s.processes[p].Inserting?
    case CheckAgain(p) => p in s.processes && s.processes[p].LookingAgain?
    case Undo(p) => p in s.processes && s.processes[p].Undoing?
    case StoreKey(p, _) => p in s.processes && s.processes[p].StoringKey?
    case Find(p, _, _) => p !in s.processes
    case Retire(p) => p in s.processes && s.processes[p].Deleting?
    case Remove(p) => p in s.processes && s.processes[p].Retired?
    case Lose(p) => p in s.processes
  }

  function Goes(s: State, p: nat, q: Process): State { s.(processes := s.processes[p := q]) }

  function Ends(s: State, p: nat): State { s.(processes := s.processes - {p}) }

  function Step(s: State, e: Event): State
    requires Possible(s, e)
  {
    match e
    case Begin(p, t) => Goes(s, p, Creating(t))
    case Check(p) =>
      var t := s.processes[p].tenant;
      if t.key in s.retired then Ends(s, p) else Goes(s, p, Inserting(t))
    case Insert(p) =>
      var t := s.processes[p].tenant;
      if Taken(s.tenants, t) then Ends(s, p)
      else Goes(s, p, LookingAgain(t, s.nextId)).(tenants := s.tenants[s.nextId := t], nextId := s.nextId + 1)
    case CheckAgain(p) =>
      var q := s.processes[p];
      if q.tenant.key in s.retired then Goes(s, p, Undoing(q.tenant, q.id)) else Goes(s, p, StoringKey(q.tenant, q.id))
    case Undo(p) => Ends(s, p).(tenants := s.tenants - {s.processes[p].id})
    case StoreKey(p, ok) =>
      var q := s.processes[p];
      if ok then Ends(s, p).(created := s.created[q.id := q.tenant]) else Goes(s, p, Undoing(q.tenant, q.id))
    case Find(p, id, hasProviders) =>
      if id in s.tenants && !hasProviders then Goes(s, p, Deleting(s.tenants[id], id)) else s
    case Retire(p) =>
      var q := s.processes[p];
      Goes(s, p, Retired(q.tenant, q.id)).(retired := s.retired + {q.tenant.key})
    case Remove(p) => Ends(s, p).(tenants := s.tenants - {s.processes[p].id})
    case Lose(p) => Ends(s, p)
  }

  // ---- What every step keeps -------------------------------------------------------------------

  /** Row `id` is there, with this tenant; or its key is retired for good. */
  ghost predicate Stands(s: State, id: nat, t: Tenant) {
    (id in s.tenants && s.tenants[id] == t) || t.key in s.retired
  }

  ghost predicate ProcessOk(s: State, q: Process) {
    && (q.LookingAgain? || q.StoringKey? || q.Deleting? || q.Retired? || q.Undoing? ==> q.id < s.nextId)
    && (q.LookingAgain? || q.StoringKey? ==> Stands(s, q.id, q.tenant))
    && (q.Retired? ==> q.tenant.key in s.retired && (q.id in s.tenants ==> s.tenants[q.id] == q.tenant))
    && (q.Deleting? || q.StoringKey? || q.LookingAgain? || q.Undoing? ==> (q.id in s.tenants ==> s.tenants[q.id] == q.tenant))
  }

  predicate Inserted(q: Process) { q.LookingAgain? || q.StoringKey? || q.Undoing? }

  ghost predicate Passed(s: State, id: nat, t: Tenant) {
    || (id in s.created && s.created[id] == t)
    || exists p :: p in s.processes && s.processes[p] == StoringKey(t, id)
  }

  /** Each inserted row has one process at most still to answer for it, and none once it is answered. */
  ghost predicate Apart(s: State) {
    && (forall p, q :: p in s.processes && q in s.processes && p != q && Inserted(s.processes[p]) && Inserted(s.processes[q]) ==>
          s.processes[p].id != s.processes[q].id)
    && (forall p :: p in s.processes && Inserted(s.processes[p]) ==> s.processes[p].id !in s.created)
  }

  ghost predicate RowsOk(s: State) {
    && (forall id :: id in s.tenants ==> id < s.nextId)
    && (forall i, j :: i in s.tenants && j in s.tenants && i != j ==> s.tenants[i].key != s.tenants[j].key)
  }

  ghost predicate CreatedOk(s: State) {
    forall id :: id in s.created ==> id < s.nextId && Stands(s, id, s.created[id])
  }

  ghost predicate ProcessesOk(s: State) {
    forall p :: p in s.processes ==> ProcessOk(s, s.processes[p])
  }

  ghost predicate Inv(s: State) { RowsOk(s) && ProcessesOk(s) && CreatedOk(s) && Apart(s) }

  /** Whoever has seen the key unretired after inserting has it alone. */
  ghost predicate Alone(s: State) {
    forall i, t, j, u :: Passed(s, i, t) && Passed(s, j, u) && t.key == u.key ==> i == j
  }

  // ---- The steps that matter -------------------------------------------------------------------

  /** Taking away row `gone` leaves every other process and answered create as it was. */
  lemma RemoveKeeps(s: State, p: nat)
    requires Inv(s) && p in s.processes && (s.processes[p].Undoing? || s.processes[p].Retired?)
    ensures Inv(Ends(s, p).(tenants := s.tenants - {s.processes[p].id}))
  {
    var q := s.processes[p];
    var s' := Ends(s, p).(tenants := s.tenants - {q.id});
    assert ProcessOk(s, q);
    forall r | r in s'.processes ensures ProcessOk(s', s'.processes[r]) {
      assert ProcessOk(s, s.processes[r]);
    }
    forall id | id in s'.created ensures id < s'.nextId && Stands(s', id, s'.created[id]) {
      assert Stands(s, id, s.created[id]);
    }
  }

  lemma InsertKeeps(s: State, p: nat)
    requires Inv(s) && Possible(s, Insert(p)) && !Taken(s.tenants, s.processes[p].tenant)
    ensures Inv(Step(s, Insert(p)))
  {
    var s' := Step(s, Insert(p));
    forall r | r in s'.processes ensures ProcessOk(s', s'.processes[r]) {
      if r != p { assert ProcessOk(s, s.processes[r]); }
    }
    forall i, j | i in s'.tenants && j in s'.tenants && i != j ensures s'.tenants[i].key != s'.tenants[j].key {}
    forall id | id in s'.created ensures id < s'.nextId && Stands(s', id, s'.created[id]) {
      assert Stands(s, id, s.created[id]);
    }
    forall r | r in s'.processes && r != p && Inserted(s'.processes[r]) ensures s'.processes[r].id != s.nextId {
      assert ProcessOk(s, s.processes[r]);
    }
  }

  lemma OtherProcesses(s: State, e: Event)
    requires Inv(s) && Possible(s, e)
    requires !e.Undo? && !e.Remove? && !(e.Insert? && !Taken(s.tenants, s.processes[e.pid].tenant))
    ensures ProcessesOk(Step(s, e))
  {
    var s' := Step(s, e);
    forall r | r in s'.processes ensures ProcessOk(s', s'.processes[r]) {
      if r in s.processes { assert ProcessOk(s, s.processes[r]); }
    }
  }

  lemma OtherCreated(s: State, e: Event)
    requires Inv(s) && Possible(s, e)
    requires !e.Undo? && !e.Remove? && !(e.Insert? && !Taken(s.tenants, s.processes[e.pid].tenant))
    ensures CreatedOk(Step(s, e))
  {
    var s' := Step(s, e);
    forall id | id in s'.created ensures id < s'.nextId && Stands(s', id, s'.created[id]) {
      if e.StoreKey? { assert ProcessOk(s, s.processes[e.pid]); }
    }
  }

  lemma OtherKeeps(s: State, e: Event)
    requires Inv(s) && Possible(s, e)
    requires !e.Undo? && !e.Remove? && !(e.Insert? && !Taken(s.tenants, s.processes[e.pid].tenant))
    ensures Inv(Step(s, e))
  {
    OtherProcesses(s, e);
    OtherCreated(s, e);
    OtherApart(s, e);
    OtherRows(s, e);
  }

  lemma OtherRows(s: State, e: Event)
    requires RowsOk(s) && Possible(s, e)
    requires !e.Undo? && !e.Remove? && !(e.Insert? && !Taken(s.tenants, s.processes[e.pid].tenant))
    ensures RowsOk(Step(s, e))
  {
    assert Step(s, e).tenants == s.tenants && Step(s, e).nextId == s.nextId;
  }

  lemma OtherApart(s: State, e: Event)
    requires Apart(s) && Possible(s, e)
    requires !e.Undo? && !e.Remove? && !(e.Insert? && !Taken(s.tenants, s.processes[e.pid].tenant))
    ensures Apart(Step(s, e))
  {
    var s' := Step(s, e);
    forall p | p in s'.processes && Inserted(s'.processes[p]) ensures p in s.processes && Inserted(s.processes[p]) && s.processes[p].id == s'.processes[p].id {}
  }

  lemma StepKeeps(s: State, e: Event)
    requires Inv(s) && Possible(s, e)
    ensures Inv(Step(s, e))
  {
    if e.Undo? || e.Remove? { RemoveKeeps(s, e.pid); }
    else if e.Insert? && !Taken(s.tenants, s.processes[e.pid].tenant) { InsertKeeps(s, e.pid); }
    else { OtherKeeps(s, e); }
  }

  /** A key not yet retired is held by one row only, so whoever passes with it passes alone. */
  lemma PassedIsThere(s: State, id: nat, t: Tenant)
    requires Inv(s) && Passed(s, id, t) && t.key !in s.retired
    ensures id in s.tenants && s.tenants[id] == t
  {
    if id in s.created && s.created[id] == t {
      assert Stands(s, id, t);
    } else {
      var p :| p in s.processes && s.processes[p] == StoringKey(t, id);
      assert ProcessOk(s, s.processes[p]);
    }
  }

  /** Only the second look, with the key still unretired, adds to those who passed. */
  lemma PassedBefore(s: State, e: Event, id: nat, t: Tenant)
    requires Inv(s) && Possible(s, e) && Passed(Step(s, e), id, t)
    ensures Passed(s, id, t) || (e.CheckAgain? && s.processes[e.pid] == LookingAgain(t, id) && t.key !in s.retired)
  {
    var s' := Step(s, e);
    if id in s'.created && s'.created[id] == t {
      if e.StoreKey? && s.processes[e.pid].id == id { assert s.processes[e.pid] in s.processes.Values; }
    } else {
      var p :| p in s'.processes && s'.processes[p] == StoringKey(t, id);
      assert p in s.processes;
    }
  }

  lemma AloneKeeps(s: State, e: Event)
    requires Inv(s) && Alone(s) && Possible(s, e)
    ensures Alone(Step(s, e))
  {
    var s' := Step(s, e);
    forall i, t, j, u | Passed(s', i, t) && Passed(s', j, u) && t.key == u.key ensures i == j {
      PassedBefore(s, e, i, t);
      PassedBefore(s, e, j, u);
      if !Passed(s, i, t) || !Passed(s, j, u) {
        assert ProcessOk(s, s.processes[e.pid]);
        if Passed(s, i, t) { PassedIsThere(s, i, t); }
        if Passed(s, j, u) { PassedIsThere(s, j, u); }
      }
    }
  }

  // ---- Whole runs ------------------------------------------------------------------------------

  ghost predicate IsRun(run: seq<State>, es: seq<Event>) {
    && |run| == |es| + 1
    && run[0] == State(map[], {}, map[], map[], 0)
    && forall i :: 0 <= i < |es| ==> Possible(run[i], es[i]) && run[i + 1] == Step(run[i], es[i])
  }

  lemma {:induction false} RunKeeps(run: seq<State>, es: seq<Event>, i: nat)
    requires IsRun(run, es) && i <= |es|
    ensures Inv(run[i]) && Alone(run[i])
  {
    if i > 0 {
      RunKeeps(run, es, i - 1);
      StepKeeps(run[i - 1], es[i - 1]);
      AloneKeeps(run[i - 1], es[i - 1]);
    }
  }

  /** A tenant key is answered for once, over any run: no two successful creates ever have the same. */
  lemma KeysAreNeverReused(run: seq<State>, es: seq<Event>, i: nat, j: nat)
    requires IsRun(run, es) && i in run[|es|].created && j in run[|es|].created
    requires run[|es|].created[i].key == run[|es|].created[j].key
    ensures i == j
  {
    RunKeeps(run, es, |es|);
    var s := run[|es|];
    assert Passed(s, i, s.created[i]) && Passed(s, j, s.created[j]);
  }

  /** A tenant answered for is there as it was created, or its key is retired, and stays so. */
  lemma CreatedUntilRetired(run: seq<State>, es: seq<Event>, id: nat)
    requires IsRun(run, es) && id in run[|es|].created
    ensures var s := run[|es|]; Stands(s, id, s.created[id])
  {
    RunKeeps(run, es, |es|);
  }

  // ---- How far it goes -------------------------------------------------------------------------

  lemma Extend(run: seq<State>, es: seq<Event>, e: Event) returns (run': seq<State>, es': seq<Event>)
    requires IsRun(run, es) && Possible(run[|es|], e)
    ensures IsRun(run', es') && run'[|es'|] == Step(run[|es|], e) && es' == es + [e]
  {
    run', es' := run + [Step(run[|es|], e)], es + [e];
  }

  /** One tenant is created as row 0, and another create of its key has looked once. */
  lemma TwoLooked(t: Tenant, u: Tenant) returns (run: seq<State>, es: seq<Event>)
    requires t.key == u.key
    ensures IsRun(run, es) && run[|es|] == State(map[0 := t], {}, map[1 := Inserting(u)], map[0 := t], 1)
  {
    run, es := [State(map[], {}, map[], map[], 0)], [];
    run, es := Extend(run, es, Begin(0, t));
    run, es := Extend(run, es, Check(0));
    run, es := Extend(run, es, Insert(0));
    run, es := Extend(run, es, CheckAgain(0));
    assert run[|es|] == State(map[0 := t], {}, map[0 := StoringKey(t, 0)], map[], 1);
    run, es := FirstAnswered(run, es, t, u);
  }

  lemma FirstAnswered(run: seq<State>, es: seq<Event>, t: Tenant, u: Tenant) returns (run': seq<State>, es': seq<Event>)
    requires IsRun(run, es) && run[|es|] == State(map[0 := t], {}, map[0 := StoringKey(t, 0)], map[], 1)
    ensures IsRun(run', es') && run'[|es'|] == State(map[0 := t], {}, map[1 := Inserting(u)], map[0 := t], 1)
  {
    run', es' := Extend(run, es, StoreKey(0, true));
    assert run'[|es'|].processes == map[];
    run', es' := Extend(run', es', Begin(1, u));
    run', es' := Extend(run', es', Check(1));
  }

  /** The first tenant is deleted, its key retired. */
  lemma FirstDeleted(run: seq<State>, es: seq<Event>, t: Tenant, u: Tenant) returns (run': seq<State>, es': seq<Event>)
    requires IsRun(run, es) && run[|es|] == State(map[0 := t], {}, map[1 := Inserting(u)], map[0 := t], 1)
    ensures IsRun(run', es') && run'[|es'|] == State(map[], {t.key}, map[1 := Inserting(u)], map[0 := t], 1)
  {
    run', es' := Extend(run, es, Find(2, 0, false));
    run', es' := Extend(run', es', Retire(2));
    run', es' := Extend(run', es', Remove(2));
    assert run'[|es'|].tenants == map[] && run'[|es'|].processes == map[1 := Inserting(u)];
  }

  /**
   * What the second look cannot do: a create that is lost between its insert and that look leaves
   * its row, though the key is retired. It was never answered for; nothing here removes it.
   */
  lemma LostCreateKeepsItsRow(t: Tenant, u: Tenant) returns (run: seq<State>, es: seq<Event>)
    requires t.key == u.key
    ensures IsRun(run, es)
    ensures var s := run[|es|]; s.tenants == map[1 := u] && u.key in s.retired && s.processes == map[] && s.created == map[0 := t]
  {
    run, es := TwoLooked(t, u);
    run, es := FirstDeleted(run, es, t, u);
    run, es := Extend(run, es, Insert(1));
    run, es := Extend(run, es, Lose(1));
    assert run[|es|].processes == map[];
  }

  // ---- The endpoints, one request at a time ------------------------------------------------------

  /** A create with no other request about. */
  function CreatedAlone(s: State, t: Tenant, keyStored: bool): State
    requires s.processes == map[]
  {
    if t.key in s.retired || Taken(s.tenants, t) then s
    else if keyStored then s.(tenants := s.tenants[s.nextId := t], created := s.created[s.nextId := t], nextId := s.nextId + 1)
    else s.(nextId := s.nextId + 1)
  }

  function DeletedAlone(s: State, id: nat, hasProviders: bool): State {
    if id !in s.tenants || hasProviders then s
    else s.(tenants := s.tenants - {id}, retired := s.retired + {s.tenants[id].key})
  }

  /** They are the steps above, one after another. */
  lemma CreatedAloneSteps(run: seq<State>, es: seq<Event>, t: Tenant, keyStored: bool) returns (run': seq<State>, es': seq<Event>)
    requires IsRun(run, es) && run[|es|].processes == map[]
    ensures IsRun(run', es') && run'[|es'|] == CreatedAlone(run[|es|], t, keyStored)
    ensures es < es' && es'[|es|] == Begin(0, t)
    ensures forall k :: |es| < k < |es'| ==> es'[k] in {Check(0), Insert(0), CheckAgain(0), StoreKey(0, keyStored), Undo(0)}
  {
    var s := run[|es|];
    RunKeeps(run, es, |es|);
    run', es' := Extend(run, es, Begin(0, t));
    run', es' := Extend(run', es', Check(0));
    if t.key in s.retired {
      assert run'[|es'|].processes == map[];
    } else {
      run', es' := Extend(run', es', Insert(0));
      if Taken(s.tenants, t) {
        assert run'[|es'|].processes == map[];
      } else {
        run', es' := Extend(run', es', CheckAgain(0));
        run', es' := AnswerAlone(run', es', s, t, keyStored);
      }
    }
  }

  lemma AnswerAlone(run: seq<State>, es: seq<Event>, s: State, t: Tenant, keyStored: bool) returns (run': seq<State>, es': seq<Event>)
    requires IsRun(run, es) && s.nextId !in s.tenants && s.processes == map[]
    requires run[|es|] == s.(tenants := s.tenants[s.nextId := t], processes := map[0 := StoringKey(t, s.nextId)], nextId := s.nextId + 1)
    ensures IsRun(run', es')
    ensures run'[|es'|] == if keyStored then s.(tenants := s.tenants[s.nextId := t], created := s.created[s.nextId := t], nextId := s.nextId + 1)
                           else s.(nextId := s.nextId + 1)
    ensures es <= es' && forall k :: |es| <= k < |es'| ==> es'[k] in {StoreKey(0, keyStored), Undo(0)}
  {
    run', es' := Extend(run, es, StoreKey(0, keyStored));
    if keyStored {
      assert run'[|es'|].processes == map[];
    } else {
      run', es' := Extend(run', es', Undo(0));
      assert run'[|es'|].processes == map[] && run'[|es'|].tenants == s.tenants;
    }
  }

  lemma DeletedAloneSteps(run: seq<State>, es: seq<Event>, id: nat, hasProviders: bool) returns (run': seq<State>, es': seq<Event>)
    requires IsRun(run, es) && run[|es|].processes == map[]
    ensures IsRun(run', es') && run'[|es'|] == DeletedAlone(run[|es|], id, hasProviders)
    ensures es' == es + [Find(0, id, hasProviders)] + if id in run[|es|].tenants && !hasProviders then [Retire(0), Remove(0)] else []
  {
    run', es' := Extend(run, es, Find(0, id, hasProviders));
    if id in run[|es|].tenants && !hasProviders {
      run', es' := Extend(run', es', Retire(0));
      run', es' := Extend(run', es', Remove(0));
      assert run'[|es'|].processes == map[];
    }
  }

  class TenantRows {
    var tenants: map<nat, Tenant>
    var retired: set<Key>
    var nextId: nat
    ghost var created: map<nat, Tenant>

    constructor ()
      ensures View() == State(map[], {}, map[], map[], 0)
    {
      tenants, retired, nextId, created := map[], {}, 0, map[];
    }

    ghost function View(): State
      reads this
    {
      State(tenants, retired, map[], created, nextId)
    }

    /** The UNIQUE columns decide. */
    method InsertTenant(t: Tenant) returns (id: nat, ok: bool)
      modifies this`tenants, this`nextId
      ensures ok <==> !Taken(old(tenants), t)
      ensures id == old(nextId)
      ensures tenants == if ok then old(tenants)[id := t] else old(tenants)
      ensures nextId == if ok then old(nextId) + 1 else old(nextId)
    {
      id := nextId;
      if exists i :: i in tenants && (tenants[i].org == t.org || tenants[i].key == t.key) { return id, false; }
      tenants, nextId := tenants[id := t], nextId + 1;
      ok := true;
    }

    /** `keyStored`: whether its signing key could be stored. */
    method CreateTenant(t: Tenant, keyStored: bool) returns (ok: bool)
      requires Inv(View())
      modifies this
      ensures View() == CreatedAlone(old(View()), t, keyStored)
      ensures ok ==> t in tenants.Values && t.key !in retired
    {
      if t.key in retired { return false; }
      var id, inserted := InsertTenant(t);
      if !inserted { return false; }
      // The second look: with no other request about, it finds what the first one did.
      assert t.key !in retired;
      if !keyStored {
        tenants := tenants - {id};
        assert tenants == old(tenants);
        return false;
      }
      created := created[id := t];
      assert tenants[id] == t;
      ok := true;
    }

    /** Retires the key first, then deletes the row. */
    method DeleteTenant(id: nat, hasProviders: bool) returns (ok: bool)
      modifies this
      ensures View() == DeletedAlone(old(View()), id, hasProviders)
      ensures ok <==> id in old(tenants) && !hasProviders
      ensures ok ==> old(tenants)[id].key in retired && id !in tenants
    {
      if id !in tenants || hasProviders { return false; }
      if tenants[id].key !in retired { retired := retired + {tenants[id].key}; }
      tenants := tenants - {id};
      ok := true;
    }
  }
}
