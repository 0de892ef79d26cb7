/** Which requests about keys are refused, and which rows are pruned: exactly, told from the rows. */
module KeyRows {
  import opened Optional
  import opened KeyRotation
  import opened KeySafety
  import opened KeyPublished

  /** Row `i` is the first in this state, among the newest hundred. */
  ghost predicate IsFirst(t: Table, st: KeyState, i: nat) {
    i < |t| && i < 100 && t[i].state == st && forall j :: 0 <= j < i ==> t[j].state != st
  }

  lemma FirstIsFirst(t: Table, st: KeyState)
    ensures First(Newest(t, HANDLER_LIMIT), st).Some? <==> exists i: nat :: IsFirst(t, st, i)
    ensures forall i: nat :: IsFirst(t, st, i) ==> First(Newest(t, HANDLER_LIMIT), st) == Some(t[i])
  {
    var rows := Newest(t, HANDLER_LIMIT);
    NewestAre(t, HANDLER_LIMIT);
    forall i: nat | IsFirst(t, st, i) ensures First(rows, st) == Some(t[i]) { FirstAt(rows, st, i); }
    if First(rows, st).Some? {
      var n :| 0 <= n < |rows| && rows[n] == First(rows, st).value;
      var i := Earliest(t, st, n);
      assert IsFirst(t, st, i);
    }
  }

  lemma {:induction false} Earliest(t: Table, st: KeyState, n: nat) returns (i: nat)
    requires n < |t| && t[n].state == st
    ensures i <= n && t[i].state == st && forall j :: 0 <= j < i ==> t[j].state != st
    decreases n
  {
    if j :| 0 <= j < n && t[j].state == st { i := Earliest(t, st, j); } else { i := n; }
  }

  /**
   * Of the newest hundred rows: a rotation is refused exactly if one is `next`; an activation if none
   * is, or the first that is has not been there for the minimum time, unless forced; a retirement if
   * none is `previous`.
   */
  lemma RefusedExactly(t: Table, root: Option<Certificate>, id: nat, certificate: Certificate, now: int, force: bool, minPublished: nat)
    ensures RotatePlan(t, id, certificate, now) == [] <==> exists i: nat :: IsFirst(t, Next, i)
    ensures ActivatePlan(t, root, id, now, force, minPublished) != [] <==>
      exists i: nat :: IsFirst(t, Next, i) && (force || minPublished <= now - t[i].createdAt)
    ensures RetirePlan(t) != [] <==> exists i: nat :: IsFirst(t, Previous, i)
  {
    hide First, Newest, Replacement, Retirement;
    FirstIsFirst(t, Next);
    FirstIsFirst(t, Previous);
    assert forall i: nat, j: nat :: IsFirst(t, Next, i) && IsFirst(t, Next, j) ==> i == j;
  }

  // ---- Pruning -----------------------------------------------------------------------------------

  /** How many of the first `n` rows are retired. */
  function RetiredAbove(t: Table, n: nat): nat
    requires n <= |t|
  {
    if n == 0 then 0 else RetiredAbove(t, n - 1) + if t[n - 1].state == Retired then 1 else 0
  }

  lemma {:induction false} RetiredOnward(t: Table, n: nat)
    requires 0 < n <= |t|
    ensures RetiredAbove(t, n) == RetiredAbove(t[1..], n - 1) + if t[0].state == Retired then 1 else 0
    decreases n
  {
    if n > 1 { RetiredOnward(t, n - 1); }
  }

  /** A retired row is, among the retired ones, after as many as are above it. */
  lemma {:induction false} HavingAt(t: Table, i: nat)
    requires i < |t| && t[i].state == Retired
    ensures RetiredAbove(t, i) < |Having(t, Retired)| && Having(t, Retired)[RetiredAbove(t, i)] == t[i]
    decreases |t|
  {
    if i > 0 {
      RetiredOnward(t, i);
      HavingAt(t[1..], i - 1);
    }
  }

  lemma {:induction false} AboveNewest(t: Table, limit: nat, n: nat)
    requires n <= |Newest(t, limit)|
    ensures n <= |t| && RetiredAbove(Newest(t, limit), n) == RetiredAbove(t, n)
    decreases n
  {
    NewestAre(t, limit);
    if n > 0 { AboveNewest(t, limit, n - 1); }
  }

  lemma SurplusExactly(t: Table, i: nat)
    requires Distinct(t) && i < |t|
    ensures t[i] in Surplus(t) <==> i < 100 && t[i].state == Retired && RetiredAbove(t, i) >= 5
  {
    var rows := Newest(t, HANDLER_LIMIT);
    var retired := Having(rows, Retired);
    NewestAre(t, HANDLER_LIMIT);
    HavingDistinct(rows, Retired);
    if i < |rows| && t[i].state == Retired {
      HavingAt(rows, i);
      AboveNewest(t, HANDLER_LIMIT, i);
      var n := RetiredAbove(t, i);
      assert n >= 5 ==> Surplus(t)[n - 5] == t[i];
      forall k | 0 <= k < |Surplus(t)| && Surplus(t)[k] == t[i] ensures n == k + 5 { assert retired[k + 5] == retired[n]; }
    }
    if t[i] in Surplus(t) {
      assert t[i] in retired;
      HavingIs(rows, Retired, t[i]);
      var n :| 0 <= n < |rows| && rows[n] == t[i];
      assert n == i;
    }
  }

  /** Pruning leaves every row but the retired ones that have five newer retired ones above them. */
  lemma PrunedExactly(t: Table, i: nat)
    requires Distinct(t) && i < |t|
    ensures t[i] in ApplyAll(t, Deletes(Surplus(t))) <==> !(i < 100 && t[i].state == Retired && RetiredAbove(t, i) >= 5)
  {
    SurplusExactly(t, i);
    SurplusRetired(t);
    DeletesExactly(t, Surplus(t), t[i]);
  }

  lemma {:induction false} DeletedExactly(t: Table, id: nat, row: Row)
    ensures row in DeleteRow(t, id) <==> row in t && row.id != id
    decreases |t|
  {
    if t != [] {
      assert t == [t[0]] + t[1..];
      DeletedExactly(t[1..], id, row);
    }
  }

  lemma {:induction false} DeletesExactly(t: Table, rows: seq<Row>, row: Row)
    requires Distinct(t) && (forall j :: 0 <= j < |rows| ==> rows[j] in t) && row in t
    ensures row in ApplyAll(t, Deletes(rows)) <==> row !in rows
    decreases |rows|
  {
    DeletesByIds(t, rows, row);
    if j :| 0 <= j < |rows| && rows[j].id == row.id {
      var a, b :| 0 <= a < |t| && t[a] == rows[j] && 0 <= b < |t| && t[b] == row;
      assert a == b;
    }
  }

  lemma {:induction false} DeletesByIds(t: Table, rows: seq<Row>, row: Row)
    ensures row in ApplyAll(t, Deletes(rows)) <==> row in t && forall j :: 0 <= j < |rows| ==> rows[j].id != row.id
    decreases |rows|
  {
    if rows != [] {
      assert Deletes(rows)[1..] == Deletes(rows[1..]);
      DeletesByIds(DeleteRow(t, rows[0].id), rows[1..], row);
      DeletedExactly(t, rows[0].id, row);
      assert forall j :: 0 < j < |rows| ==> rows[j] == rows[1..][j - 1];
    }
  }
}
