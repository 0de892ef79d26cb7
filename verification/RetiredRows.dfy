/**
Tenant rows whose key is retired: when some request under way will remove each of them, and when one
is left behind.
*/
module RetiredRows {
  import opened TenantRetirement

  /**
   * Going on, this request removes row `id` if its key is retired: a create that is to look again, or
   * is undoing its insert; or a delete that has found the row.
   */
  predicate Owes(q: Process, id: nat) {
    (q.LookingAgain? || q.Undoing? || q.Deleting? || q.Retired?) && q.id == id
  }

  ghost predicate Owed(s: State, id: nat) {
    exists p :: p in s.processes && Owes(s.processes[p], id)
  }

  predicate IsRetired(s: State, id: nat) { id in s.tenants && s.tenants[id].key in s.retired }

  /** Whatever row has a retired key is about to go. */
  ghost predicate AllOwed(s: State) {
    forall id :: IsRetired(s, id) ==> Owed(s, id)
  }

  /** Of the requests under way `p` alone owes row `id`. */
  ghost predicate OnlyOwing(s: State, p: nat, id: nat) {
    p in s.processes && Owes(s.processes[p], id) && forall r :: r in s.processes && r != p ==> !Owes(s.processes[r], id)
  }

  /**
   * No request is lost that alone owes a row with a retired key. A delete retires its key while the
   * row it found is there; or no row has the key now, or only one that is owed.
   */
  ghost predicate Allowed(s: State, e: Event)
    requires Possible(s, e)
  {
    match e
    case Lose(p) => forall id :: IsRetired(s, id) ==> !OnlyOwing(s, p, id)
    case Retire(p) =>
      var q := s.processes[p];
      q.id in s.tenants || forall id :: id in s.tenants && s.tenants[id].key == q.tenant.key ==> Owed(s, id)
    case _ => true
  }

  // ---- Every step --------------------------------------------------------------------------------

  /** Who owed a row that is still there owes it still, unless lost. */
  lemma OwesOn(s: State, e: Event, p: nat, id: nat)
    requires Inv(s) && Possible(s, e) && p in s.processes && Owes(s.processes[p], id)
    requires IsRetired(s, id) && id in Step(s, e).tenants && e != Lose(p)
    ensures p in Step(s, e).processes && Owes(Step(s, e).processes[p], id)
  {
    assert ProcessOk(s, s.processes[p]);
  }

  /** The key of a row that no step before had retired is retired now. */
  lemma NewlyRetired(s: State, e: Event, id: nat)
    requires Inv(s) && Possible(s, e) && IsRetired(Step(s, e), id) && !IsRetired(s, id)
    ensures e.Insert? ==> Owed(Step(s, e), id)
    ensures e.Insert? || (e.Retire? && id in s.tenants && s.tenants[id].key == s.processes[e.pid].tenant.key)
  {
    if e.Insert? {
      var t := s.processes[e.pid].tenant;
      assert Step(s, e).processes[e.pid] == LookingAgain(t, s.nextId);
      assert Owes(Step(s, e).processes[e.pid], id);
    }
  }

  lemma OwedOn(s: State, e: Event, id: nat)
    requires Inv(s) && Possible(s, e) && Owed(s, id) && IsRetired(s, id) && id in Step(s, e).tenants
    requires e.Lose? ==> !OnlyOwing(s, e.pid, id)
    ensures Owed(Step(s, e), id)
  {
    var p :| p in s.processes && Owes(s.processes[p], id);
    if e == Lose(p) {
      var r :| r in s.processes && r != p && Owes(s.processes[r], id);
      OwesOn(s, e, r, id);
    } else {
      OwesOn(s, e, p, id);
    }
  }

  /** A delete about to retire a key owes the row it found; by UNIQUE keys no other row has that key. */
  lemma RetireOwes(s: State, p: nat, id: nat)
    requires Inv(s) && Possible(s, Retire(p)) && id in s.tenants && s.tenants[id].key == s.processes[p].tenant.key
    requires Allowed(s, Retire(p))
    ensures Owed(Step(s, Retire(p)), id)
  {
    var q := s.processes[p];
    var s' := Step(s, Retire(p));
    assert ProcessOk(s, q);
    if id == q.id {
      assert Owes(s'.processes[p], id);
    } else {
      var r :| r in s.processes && Owes(s.processes[r], id);
      assert r != p && Owes(s'.processes[r], id);
    }
  }

  lemma AllowedOwes(s: State, e: Event)
    requires Inv(s) && AllOwed(s) && Possible(s, e) && Allowed(s, e)
    ensures AllOwed(Step(s, e))
  {
    forall id | IsRetired(Step(s, e), id) ensures Owed(Step(s, e), id) {
      if IsRetired(s, id) {
        OwedOn(s, e, id);
      } else {
        NewlyRetired(s, e, id);
        if e.Retire? { RetireOwes(s, e.pid, id); }
      }
    }
  }

  /** What owes a row after a loss, or after a key is retired, owed it before. */
  lemma OwedBefore(s: State, e: Event, id: nat)
    requires Possible(s, e) && (e.Lose? || e.Retire?) && Owed(Step(s, e), id)
    ensures exists p :: p in s.processes && Owes(s.processes[p], id) && e != Lose(p)
  {
    var p :| p in Step(s, e).processes && Owes(Step(s, e).processes[p], id);
    assert p in s.processes && Owes(s.processes[p], id);
  }

  lemma OthersStrand(s: State, e: Event)
    requires Possible(s, e) && AllOwed(Step(s, e))
    ensures Allowed(s, e)
  {
    var s' := Step(s, e);
    if e.Lose? {
      forall id | IsRetired(s, id) ensures !OnlyOwing(s, e.pid, id) {
        assert IsRetired(s', id) && Owed(s', id);
        OwedBefore(s, e, id);
      }
    } else if e.Retire? {
      forall id | id in s.tenants && s.tenants[id].key == s.processes[e.pid].tenant.key ensures Owed(s, id) {
        assert IsRetired(s', id) && Owed(s', id);
        OwedBefore(s, e, id);
      }
    }
  }

  /** From where every row with a retired key is owed, the next step keeps it so exactly if it is allowed. */
  lemma OwedExactly(s: State, e: Event)
    requires Inv(s) && AllOwed(s) && Possible(s, e)
    ensures AllOwed(Step(s, e)) <==> Allowed(s, e)
  {
    if Allowed(s, e) { AllowedOwes(s, e); }
    if AllOwed(Step(s, e)) { OthersStrand(s, e); }
  }

  // ---- Whole runs --------------------------------------------------------------------------------

  ghost predicate Guarded(run: seq<State>, es: seq<Event>)
    requires IsRun(run, es)
  {
    forall i :: 0 <= i < |es| ==> Allowed(run[i], es[i])
  }

  lemma {:induction false} GuardedOwes(run: seq<State>, es: seq<Event>, i: nat)
    requires IsRun(run, es) && Guarded(run, es) && i <= |es|
    ensures AllOwed(run[i])
  {
    if i > 0 {
      GuardedOwes(run, es, i - 1);
      RunKeeps(run, es, i - 1);
      OwedExactly(run[i - 1], es[i - 1]);
    }
  }

  /**
   * Over any run: at every moment each row with a retired key is owed its removal if and only if
   * every loss and every retirement was allowed.
   */
  lemma OwedThroughout(run: seq<State>, es: seq<Event>)
    requires IsRun(run, es)
    ensures (forall i :: 0 <= i <= |es| ==> AllOwed(run[i])) <==> Guarded(run, es)
  {
    if Guarded(run, es) {
      forall i | 0 <= i <= |es| ensures AllOwed(run[i]) { GuardedOwes(run, es, i); }
    }
    if forall i :: 0 <= i <= |es| ==> AllOwed(run[i]) {
      forall i | 0 <= i < |es| ensures Allowed(run[i], es[i]) {
        assert AllOwed(run[i]) && AllOwed(run[i + 1]);
        OthersStrand(run[i], es[i]);
      }
    }
  }

  /** So once every request of such a run is done, no row with a retired key is left. */
  lemma NoneIsLeft(run: seq<State>, es: seq<Event>)
    requires IsRun(run, es) && Guarded(run, es) && run[|es|].processes == map[]
    ensures forall id :: !IsRetired(run[|es|], id)
  {
    GuardedOwes(run, es, |es|);
    assert forall id :: !Owed(run[|es|], id);
  }

  // ---- What is left at the end ----------------------------------------------------------------------

  /** Row `id` has a retired key, and no request under way will remove it. */
  ghost predicate Stranded(s: State, id: nat) { IsRetired(s, id) && !Owed(s, id) }

  /** The event loses the only request that owes row `id`, or retires that row's key with none owing it. */
  ghost predicate Strands(s: State, e: Event, id: nat)
    requires Possible(s, e)
  {
    match e
    case Lose(p) => IsRetired(s, id) && OnlyOwing(s, p, id)
    case Retire(p) => id in s.tenants && s.tenants[id].key == s.processes[p].tenant.key && s.tenants[id].key !in s.retired && !Owed(s, id)
    case _ => false
  }

  lemma StrandsExactly(s: State, e: Event, id: nat)
    requires Inv(s) && Possible(s, e) && !Stranded(s, id)
    ensures Stranded(Step(s, e), id) <==> Strands(s, e, id)
  {
    var s' := Step(s, e);
    if Strands(s, e, id) {
      assert IsRetired(s', id);
      if Owed(s', id) { OwedBefore(s, e, id); }
    }
    if Stranded(s', id) {
      if IsRetired(s, id) { StrandedByLoss(s, e, id); } else { StrandedByRetiring(s, e, id); }
    }
  }

  lemma StrandedByLoss(s: State, e: Event, id: nat)
    requires Inv(s) && Possible(s, e) && IsRetired(s, id) && Owed(s, id) && Stranded(Step(s, e), id)
    ensures Strands(s, e, id)
  {
    if !(e.Lose? && OnlyOwing(s, e.pid, id)) { OwedOn(s, e, id); }
  }

  lemma StrandedByRetiring(s: State, e: Event, id: nat)
    requires Inv(s) && Possible(s, e) && !IsRetired(s, id) && Stranded(Step(s, e), id)
    ensures Strands(s, e, id)
  {
    NewlyRetired(s, e, id);
    RetireKeepsOwed(s, e, id);
  }

  lemma RetireKeepsOwed(s: State, e: Event, id: nat)
    requires Possible(s, e)
    ensures e.Retire? && Owed(s, id) ==> Owed(Step(s, e), id)
  {
    if e.Retire? && Owed(s, id) {
      var p :| p in s.processes && Owes(s.processes[p], id);
      assert p in Step(s, e).processes && Owes(Step(s, e).processes[p], id);
    }
  }

  /** Only a request that owes it removes a row with a retired key. */
  lemma UnowedStays(s: State, e: Event, id: nat)
    requires Inv(s) && Possible(s, e) && Stranded(s, id)
    ensures IsRetired(Step(s, e), id)
  {
    assert e.Undo? || e.Remove? ==> Owes(s.processes[e.pid], s.processes[e.pid].id);
  }

  lemma {:induction false} StrandedOn(run: seq<State>, es: seq<Event>, i: nat, j: nat, id: nat)
    requires IsRun(run, es) && i <= j <= |es| && Stranded(run[i], id)
    requires forall k :: i <= k <= j ==> !Owed(run[k], id)
    ensures Stranded(run[j], id)
    decreases j
  {
    if i < j {
      StrandedOn(run, es, i, j - 1, id);
      RunKeeps(run, es, j - 1);
      UnowedStays(run[j - 1], es[j - 1], id);
    }
  }

  /** Event `i` strands row `id`, and no request takes it up again. */
  ghost predicate StrandsForGood(run: seq<State>, es: seq<Event>, i: nat, id: nat)
    requires IsRun(run, es)
  {
    i < |es| && Strands(run[i], es[i], id) && forall k :: i < k <= |es| ==> !Owed(run[k], id)
  }

  /** The event that stranded a row stranded at moment `n`, and since which none has owed it. */
  lemma {:induction false} LastStrands(run: seq<State>, es: seq<Event>, n: nat, id: nat) returns (i: nat)
    requires IsRun(run, es) && n <= |es| && Stranded(run[n], id)
    ensures i < n && Strands(run[i], es[i], id) && forall k :: i < k <= n ==> !Owed(run[k], id)
  {
    assert n > 0;
    if Stranded(run[n - 1], id) {
      i := LastStrands(run, es, n - 1, id);
    } else {
      i := n - 1;
      RunKeeps(run, es, i);
      StrandsExactly(run[i], es[i], id);
    }
  }

  /**
   * Exactly: once every request of a run is done, a row with a retired key is left if and only if some
   * event stranded it and no request took it up again.
   */
  lemma LeftExactly(run: seq<State>, es: seq<Event>)
    requires IsRun(run, es) && run[|es|].processes == map[]
    ensures (exists id :: IsRetired(run[|es|], id)) <==> exists i: nat, id: nat :: StrandsForGood(run, es, i, id)
  {
    assert forall id :: !Owed(run[|es|], id);
    if id :| IsRetired(run[|es|], id) {
      var i := LastStrands(run, es, |es|, id);
      assert StrandsForGood(run, es, i, id);
    }
    if i: nat, id: nat :| StrandsForGood(run, es, i, id) {
      StrandedAfter(run, es, i, id);
      StrandedOn(run, es, i + 1, |es|, id);
    }
  }

  lemma StrandedAfter(run: seq<State>, es: seq<Event>, i: nat, id: nat)
    requires IsRun(run, es) && i < |es| && Strands(run[i], es[i], id)
    ensures IsRetired(run[i + 1], id)
  {}

  /** No request under way has anything to do with row `id`. */
  ghost predicate Untouched(s: State, id: nat) {
    forall p :: p in s.processes ==> !Owes(s.processes[p], id) && !(s.processes[p].StoringKey? && s.processes[p].id == id)
  }

  lemma StaysLeft(s: State, e: Event, id: nat)
    requires Inv(s) && Possible(s, e) && IsRetired(s, id) && Untouched(s, id) && !(e.Find? && e.id == id)
    ensures IsRetired(Step(s, e), id) && Untouched(Step(s, e), id)
  {
    var s' := Step(s, e);
    assert e.Undo? || e.Remove? ==> Owes(s.processes[e.pid], s.processes[e.pid].id);
    assert IsRetired(s', id);
  }

  /**
   * A row with a retired key that no request under way has to do with is there for good, whatever
   * else happens, until a later delete finds it.
   */
  lemma {:induction false} LeftForGood(run: seq<State>, es: seq<Event>, i: nat, j: nat, id: nat)
    requires IsRun(run, es) && i <= j <= |es| && IsRetired(run[i], id) && Untouched(run[i], id)
    requires forall k :: i <= k < j ==> !(es[k].Find? && es[k].id == id)
    ensures IsRetired(run[j], id) && Untouched(run[j], id)
    decreases j - i
  {
    if i < j {
      LeftForGood(run, es, i, j - 1, id);
      RunKeeps(run, es, j - 1);
      StaysLeft(run[j - 1], es[j - 1], id);
    }
  }

  // ---- Nothing lost, and a live tenant's key retired -----------------------------------------------

  predicate NoneLost(es: seq<Event>) { forall i :: 0 <= i < |es| ==> !es[i].Lose? }

  /** A create of row 0 is to store its key; a delete has found the row. Storing fails, and the row is undone. */
  lemma FoundThenUndone(t: Tenant) returns (run: seq<State>, es: seq<Event>)
    ensures IsRun(run, es) && NoneLost(es)
    ensures run[|es|] == State(map[], {}, map[2 := Deleting(t, 0)], map[], 1)
  {
    run, es := [State(map[], {}, map[], map[], 0)], [];
    run, es := Extend(run, es, Begin(0, t));
    run, es := Extend(run, es, Check(0));
    run, es := Extend(run, es, Insert(0));
    run, es := Extend(run, es, CheckAgain(0));
    assert run[|es|] == State(map[0 := t], {}, map[0 := StoringKey(t, 0)], map[], 1);
    run, es := Extend(run, es, Find(2, 0, false));
    run, es := Extend(run, es, StoreKey(0, false));
    run, es := Extend(run, es, Undo(0));
    assert run[|es|].processes == map[2 := Deleting(t, 0)];
  }

  /** Another tenant takes the key meanwhile, and is answered with success. */
  lemma TakenMeanwhile(run: seq<State>, es: seq<Event>, t: Tenant, u: Tenant) returns (run': seq<State>, es': seq<Event>)
    requires IsRun(run, es) && NoneLost(es)
    requires run[|es|] == State(map[], {}, map[2 := Deleting(t, 0)], map[], 1)
    ensures IsRun(run', es') && NoneLost(es')
    ensures run'[|es'|] == State(map[1 := u], {}, map[2 := Deleting(t, 0)], map[1 := u], 2)
  {
    run', es' := Extend(run, es, Begin(1, u));
    run', es' := Extend(run', es', Check(1));
    run', es' := Extend(run', es', Insert(1));
    run', es' := Extend(run', es', CheckAgain(1));
    run', es' := Extend(run', es', StoreKey(1, true));
    assert run'[|es'|].processes == map[2 := Deleting(t, 0)];
  }

  /**
   * With no request lost: a delete that found a row since undone retires the key all the same, though
   * another tenant has it by then, was answered with success, and stays.
   */
  lemma StaleDeleteRetiresALiveKey(t: Tenant, u: Tenant) returns (run: seq<State>, es: seq<Event>)
    requires t.key == u.key
    ensures IsRun(run, es) && NoneLost(es) && !Guarded(run, es)
    ensures run[|es|] == State(map[1 := u], {u.key}, map[], map[1 := u], 2)
  {
    run, es := FoundThenUndone(t);
    run, es := TakenMeanwhile(run, es, t, u);
    run, es := Extend(run, es, Retire(2));
    run, es := Extend(run, es, Remove(2));
    assert run[|es|].tenants == map[1 := u] && run[|es|].processes == map[];
    assert IsRetired(run[|es|], 1);
    if Guarded(run, es) { NoneIsLeft(run, es); }
  }
}
