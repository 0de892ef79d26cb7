/** What a create or a delete of a tenant has seen by each of its steps, over whole runs. */
module TenantHistory {
  import opened TenantRetirement

  /** What a request did, and what was there, when it came to `q`. */
  ghost predicate CameTo(s: State, e: Event, p: nat, q: Process) {
    && Possible(s, e) && !e.Lose?
    && (e.Begin? || e.Check? || e.Insert? || e.CheckAgain? || e.StoreKey? || e.Find? || e.Retire?) && e.pid == p
    && match q
      case Creating(t) => e == Begin(p, t) && p !in s.processes
      case Inserting(t) => e == Check(p) && s.processes[p] == Creating(t) && t.key !in s.retired
      case LookingAgain(t, id) =>
        && e == Insert(p) && s.processes[p] == Inserting(t) && id == s.nextId
        && forall i :: i in s.tenants ==> s.tenants[i].org != t.org && s.tenants[i].key != t.key
      case StoringKey(t, id) => e == CheckAgain(p) && s.processes[p] == LookingAgain(t, id) && t.key !in s.retired
      case Undoing(t, id) =>
        || (e == CheckAgain(p) && s.processes[p] == LookingAgain(t, id) && t.key in s.retired)
        || (e == StoreKey(p, false) && s.processes[p] == StoringKey(t, id))
      case Deleting(t, id) => e == Find(p, id, false) && p !in s.processes && id in s.tenants && s.tenants[id] == t
      case Retired(t, id) => e == Retire(p) && s.processes[p] == Deleting(t, id)
  }

  /** A request is where it was, or has come there by this step; and where it is not any more, it was refused, done or lost. */
  lemma StepProcess(s: State, e: Event, p: nat)
    requires Possible(s, e)
    ensures p in Step(s, e).processes ==> (p in s.processes && Step(s, e).processes[p] == s.processes[p]) || CameTo(s, e, p, Step(s, e).processes[p])
    ensures p in s.processes && p !in Step(s, e).processes ==>
      || e == Lose(p) || e == Undo(p) || e == Remove(p) || e == StoreKey(p, true)
      || (e == Check(p) && s.processes[p].tenant.key in s.retired)
      || (e == Insert(p) && exists i :: i in s.tenants && (s.tenants[i].org == s.processes[p].tenant.org || s.tenants[i].key == s.processes[p].tenant.key))
  {}

  /** What each step writes: a row, a retired key, an answer; and nothing else ever does. */
  lemma StepRows(s: State, e: Event)
    requires Possible(s, e)
    ensures forall i :: i in Step(s, e).tenants && i !in s.tenants ==>
      e.Insert? && i == s.nextId && Step(s, e).tenants[i] == s.processes[e.pid].tenant && Step(s, e).nextId == s.nextId + 1
    ensures forall i :: i in s.tenants && i !in Step(s, e).tenants ==>
      (e.Undo? && s.processes[e.pid].id == i) || (e.Remove? && s.processes[e.pid].id == i)
    ensures e.Undo? || e.Remove? ==> s.processes[e.pid].id !in Step(s, e).tenants
    ensures forall k :: k in Step(s, e).retired <==> k in s.retired || (e.Retire? && k == s.processes[e.pid].tenant.key)
    ensures Step(s, e).created == if e.StoreKey? && e.ok then s.created[s.processes[e.pid].id := s.processes[e.pid].tenant] else s.created
  {}

  lemma {:induction false} CameBy(run: seq<State>, es: seq<Event>, n: nat, p: nat) returns (k: nat)
    requires IsRun(run, es) && n <= |es| && p in run[n].processes
    ensures k < n && CameTo(run[k], es[k], p, run[n].processes[p])
    decreases n
  {
    hide Step, CameTo, Possible;
    assert n > 0 && run[n] == Step(run[n - 1], es[n - 1]);
    StepProcess(run[n - 1], es[n - 1], p);
    if CameTo(run[n - 1], es[n - 1], p, run[n].processes[p]) { k := n - 1; } else { k := CameBy(run, es, n - 1, p); }
  }

  /**
   * A create is answered with success only after it looked for its key and found it not retired,
   * inserted its row with none of that organization or key there, and found the key not retired again.
   */
  lemma SuccessAfterChecks(run: seq<State>, es: seq<Event>, n: nat) returns (a: nat, b: nat, c: nat)
    requires IsRun(run, es) && n < |es| && es[n].StoreKey?
    ensures a < b < c < n && es[n].pid in run[n].processes
    ensures var p, t, id := es[n].pid, run[n].processes[es[n].pid].tenant, run[n].processes[es[n].pid].id;
      && es[a] == Check(p) && t.key !in run[a].retired
      && es[b] == Insert(p) && (forall i :: i in run[b].tenants ==> run[b].tenants[i].org != t.org && run[b].tenants[i].key != t.key) && id == run[b].nextId
      && es[c] == CheckAgain(p) && t.key !in run[c].retired
  {
    c := CameBy(run, es, n, es[n].pid);
    b := CameBy(run, es, c, es[n].pid);
    a := CameBy(run, es, b, es[n].pid);
  }

  /** A key is retired only for a tenant found with no service provider in it, and a tenant deleted only with its key retired. */
  lemma RetiredUnused(run: seq<State>, es: seq<Event>, n: nat) returns (k: nat)
    requires IsRun(run, es) && n < |es| && es[n].Retire?
    ensures k < n && es[n].pid in run[n].processes && es[k] == Find(es[n].pid, run[n].processes[es[n].pid].id, false)
    ensures run[n].processes[es[n].pid].id in run[k].tenants && run[k].tenants[run[n].processes[es[n].pid].id] == run[n].processes[es[n].pid].tenant
  {
    k := CameBy(run, es, n, es[n].pid);
  }

  lemma DeletedRetired(run: seq<State>, es: seq<Event>, n: nat) returns (k: nat)
    requires IsRun(run, es) && n < |es| && es[n].Remove?
    ensures k < n && es[n].pid in run[n].processes && es[k] == Retire(es[n].pid)
    ensures run[n].processes[es[n].pid].tenant.key in run[n].retired
  {
    k := CameBy(run, es, n, es[n].pid);
    StepRows(run[k], es[k]);
    StaysRetired(run, es, k + 1, n, run[n].processes[es[n].pid].tenant.key);
  }

  lemma {:induction false} StaysRetired(run: seq<State>, es: seq<Event>, k: nat, n: nat, key: Key)
    requires IsRun(run, es) && k <= n <= |es| && key in run[k].retired
    ensures key in run[n].retired
    decreases n
  {
    if k < n {
      StaysRetired(run, es, k, n - 1, key);
      StepRows(run[n - 1], es[n - 1]);
    }
  }

  /** A row is undone only where its key was retired meanwhile, or storing its signing key failed. */
  lemma UndoneFor(run: seq<State>, es: seq<Event>, n: nat) returns (k: nat)
    requires IsRun(run, es) && n < |es| && es[n].Undo?
    ensures k < n && es[n].pid in run[n].processes
    ensures es[k] == StoreKey(es[n].pid, false) || (es[k] == CheckAgain(es[n].pid) && run[n].processes[es[n].pid].tenant.key in run[k].retired)
  {
    k := CameBy(run, es, n, es[n].pid);
  }

  /** At no moment of a run are there two tenants of one organization, or of one key. */
  lemma {:induction false} OneEach(run: seq<State>, es: seq<Event>, n: nat, i: nat, j: nat)
    requires IsRun(run, es) && n <= |es| && i in run[n].tenants && j in run[n].tenants && i != j
    ensures run[n].tenants[i].org != run[n].tenants[j].org && run[n].tenants[i].key != run[n].tenants[j].key
    decreases n
  {
    StepRows(run[n - 1], es[n - 1]);
    if i in run[n - 1].tenants && j in run[n - 1].tenants {
      OneEach(run, es, n - 1, i, j);
    }
  }
}
