/**
What each event does to one session and to one of its rows, and what a row says, over any run of
`SessionEnds`: which assertion it is of, until when it is kept, and whether the session ended.
*/
module SessionRows {
  import opened Optional
  import Logout
  import opened Participants
  import opened SessionEnds

  /** The row of an SP in a session. */
  function RowOf(t: Table, x: nat, spId: string): Option<Row> {
    var i := Find(t, x, spId);
    if i < 0 then None else Some(t[i])
  }

  lemma RowOfIs(t: Table, x: nat, spId: string)
    requires Unique(t)
    ensures forall r :: RowOf(t, x, spId) == Some(r) <==> r in t && r.session == x && r.participant.spId == spId
  {
    var i := Find(t, x, spId);
    if i >= 0 { assert t[i] in t; }
    forall r | r in t && r.session == x && r.participant.spId == spId ensures RowOf(t, x, spId) == Some(r) {
      var j :| 0 <= j < |t| && t[j] == r;
      assert IsOf(t[j], x, spId);
    }
  }

  /** The hook has something to report of the session, and is not kept from it. */
  predicate Reports(s: State, e: Event) {
    e.End? && e.marked && !Hidden(s.ending, e.session, s.now) && EndListing(s.rows, e.session).participants != []
  }

  /** The row after event `e`, from the row before it. */
  function RowAfter(s: State, e: Event, x: nat, spId: string, row: Option<Row>): Option<Row>
    requires Possible(s, e)
  {
    if e.Issue? && e.session == x && e.participant.spId == spId then
      Some(Row(x, e.participant, e.userId, if row.Some? then row.value.endedAt else None, s.live[x]))
    else if row.None? then None
    else if e.Refresh? && e.session == x && e.extended then Some(row.value.(expiresAt := e.expiresAt))
    else if Reports(s, e) && e.session == x then Some(row.value.(endedAt := Some(s.now)))
    else if e.LogOut? && e.session == x && e.deleteOk && e.forgetOk then None
    else if e.Sweep? && row.value.expiresAt < s.now then None
    else row
  }

  lemma RecordedRow(t: Table, x: nat, userId: string, p: Logout.Participant, expiresAt: int, y: nat, spId: string)
    requires Unique(t)
    ensures Unique(Recorded(t, x, userId, p, expiresAt))
    ensures var row := RowOf(t, x, p.spId); var recorded := Row(x, p, userId, if row.Some? then row.value.endedAt else None, expiresAt);
      RowOf(Recorded(t, x, userId, p, expiresAt), y, spId) == if y == x && spId == p.spId then Some(recorded) else RowOf(t, y, spId)
  {
    var u := Recorded(t, x, userId, p, expiresAt);
    var k := Find(t, x, p.spId);
    var i := if k < 0 then |t| else k;
    RecordedExactly(t, x, userId, p, expiresAt, i);
    assert Unique(u) by { assert forall j :: 0 <= j < |t| ==> u[j].session == t[j].session && u[j].participant.spId == t[j].participant.spId; }
    hide Recorded;
    if y == x && spId == p.spId {
      RowOfIs(u, y, spId);
      assert u[i] in u;
    } else {
      OtherRow(t, u, y, spId, i);
    }
  }

  lemma OtherRow(t: Table, u: Table, y: nat, spId: string, i: nat)
    requires Unique(t) && Unique(u) && i < |u| && |t| <= |u| <= |t| + 1 && i <= |t| && (|u| > |t| ==> i == |t|)
    requires forall j :: 0 <= j < |t| && j != i ==> u[j] == t[j]
    requires !IsOf(u[i], y, spId) && (i < |t| ==> !IsOf(t[i], y, spId))
    ensures RowOf(u, y, spId) == RowOf(t, y, spId)
  {
    var j, k := Find(t, y, spId), Find(u, y, spId);
    assert j >= 0 ==> IsOf(u[j], y, spId);
    assert k >= 0 ==> IsOf(t[k], y, spId);
  }

  /** Every row's SP and session stay in place. */
  lemma SameKeys(t: Table, u: Table, y: nat, spId: string)
    requires Unique(t) && |u| == |t| && forall i :: 0 <= i < |t| ==> u[i].session == t[i].session && u[i].participant == t[i].participant
    ensures Unique(u) && Find(u, y, spId) == Find(t, y, spId)
  {
    var j, k := Find(t, y, spId), Find(u, y, spId);
    assert j >= 0 ==> IsOf(u[j], y, spId);
    assert k >= 0 ==> IsOf(t[k], y, spId);
  }

  lemma FewerRows(t: Table, u: Table, y: nat, spId: string, keep: bool)
    requires Unique(t) && Unique(u) && (forall r :: r in u ==> r in t)
    requires forall r :: r in t && r.session == y && r.participant.spId == spId ==> (r in u <==> keep)
    ensures RowOf(u, y, spId) == if keep then RowOf(t, y, spId) else None
  {
    RowOfIs(t, y, spId);
    RowOfIs(u, y, spId);
    hide RowOf, Unique;
    var r := RowOf(t, y, spId);
    var q := RowOf(u, y, spId);
    if r.Some? && keep { assert q == Some(r.value); }
    if q.Some? { assert r == Some(q.value); }
  }

  /** Each event does to the row what it is to do, and no other event does anything to it. */
  lemma StepRow(s: State, e: Event, x: nat, spId: string)
    requires Possible(s, e) && Unique(s.rows)
    ensures Unique(Step(s, e).rows)
    ensures RowOf(Step(s, e).rows, x, spId) == RowAfter(s, e, x, spId, RowOf(s.rows, x, spId))
  {
    hide RowOf, Unique, EndListing, List, Recorded, Find;
    var t := s.rows;
    match e {
      case Issue(y, userId, p) => RecordedRow(t, y, userId, p, s.live[y], x, spId);
      case Refresh(y, expiresAt, extended) =>
        if extended {
          SameKeys(t, Extended(t, y, expiresAt), x, spId);
          ExtendedRow(t, y, expiresAt, x, spId);
        }
      case LogOut(y, _, deleteOk, _, forgetOk) =>
        if deleteOk && forgetOk {
          WithoutUnique(t, y);
          FewerRows(t, Without(t, y), x, spId, x != y);
        }
      case End(y, _, _) =>
        if Reports(s, e) {
          SameKeys(t, Ended(t, y, s.now), x, spId);
          EndedRow(t, y, s.now, x, spId);
        }
      case Sweep =>
        UnexpiredUnique(t, s.now);
        RowOfIs(t, x, spId);
        FewerRows(t, Unexpired(t, s.now), x, spId, RowOf(t, x, spId).None? || RowOf(t, x, spId).value.expiresAt >= s.now);
      case _ =>
    }
  }

  lemma ExtendedRow(t: Table, y: nat, expiresAt: int, x: nat, spId: string)
    requires Unique(t) && Find(Extended(t, y, expiresAt), x, spId) == Find(t, x, spId)
    ensures var r := RowOf(t, x, spId);
      RowOf(Extended(t, y, expiresAt), x, spId) == if r.Some? && x == y then Some(r.value.(expiresAt := expiresAt)) else r
  {}

  lemma EndedRow(t: Table, y: nat, at: int, x: nat, spId: string)
    requires Unique(t) && Find(Ended(t, y, at), x, spId) == Find(t, x, spId)
    ensures var r := RowOf(t, x, spId);
      RowOf(Ended(t, y, at), x, spId) == if r.Some? && x == y then Some(r.value.(endedAt := Some(at))) else r
  {}

  lemma {:induction false} AlwaysUnique(run: seq<State>, es: seq<Event>, n: nat)
    requires IsRun(run, es) && n <= |es|
    ensures Unique(run[n].rows)
  {
    if n > 0 {
      AlwaysUnique(run, es, n - 1);
      StepRow(run[n - 1], es[n - 1], 0, "");
    }
  }

  // ---- Sessions and accounts -----------------------------------------------------------------------

  /** The event deletes session `x`. */
  predicate Deletes(e: Event, x: nat) {
    match e
    case LogOut(y, _, deleteOk, _, _) => y == x && deleteOk
    case CutOff(y, deleted, _) => y == x && deleted
    case End(y, _, _) => y == x
    case _ => false
  }

  /** A session is there from its sign-in to its end, until when it was last said to be, and ends but once. */
  lemma StepSession(s: State, e: Event, x: nat)
    requires Possible(s, e)
    ensures var s' := Step(s, e);
      && (x in s'.live <==> (x in s.live && !Deletes(e, x)) || (e.SignIn? && e.session == x))
      && (x in s'.live ==> s'.live[x] == if (e.SignIn? || e.Refresh?) && e.session == x then e.expiresAt else s.live[x])
      && (x in s'.ended <==> x in s.ended || Deletes(e, x))
      && (x in s'.ended ==> if Deletes(e, x) then x in s.live && s'.ended[x] == (s.now <= s.live[x]) else s'.ended[x] == s.ended[x])
      && s'.now == s.now + (if e.Tick? then e.ms else 0)
  {
    hide EndListing, List, Recorded, Extended, Without, Unexpired;
  }

  /** An account is given by a logout that deletes the session, and by a hook that has something to report and can. */
  lemma StepAccounts(s: State, e: Event)
    requires Possible(s, e)
    ensures Step(s, e).accounts == s.accounts +
      (if e.LogOut? && e.deleteOk then [Told(e.session, if e.listOk then List(s.rows, e.session) else Listing([], true), e.listOk)]
       else if Reports(s, e) && e.told then [Reported(e.session, EndListing(s.rows, e.session))] else [])
  {
    hide EndListing, List, Recorded, Extended, Without, Unexpired;
  }

  // ---- What a row says -----------------------------------------------------------------------------

  predicate Issues(e: Event, x: nat, spId: string) {
    e.Issue? && e.session == x && e.participant.spId == spId
  }

  predicate Extends(e: Event, x: nat) { e.Refresh? && e.session == x && e.extended }

  /** Before moment `n`, the last assertion for the SP in session `x` is that of event `k`. */
  ghost predicate LastIssued(es: seq<Event>, n: nat, x: nat, spId: string, k: nat)
    requires n <= |es|
  {
    k < n && Issues(es[k], x, spId) && forall j :: k < j < n ==> !Issues(es[j], x, spId)
  }

  /** `at` is what the session's expiry was when event `k` issued, or what it was last extended to since. */
  ghost predicate KeptUntil(run: seq<State>, es: seq<Event>, n: nat, x: nat, k: nat, at: int)
    requires IsRun(run, es) && k < n <= |es|
  {
    || (x in run[k].live && at == run[k].live[x] && forall j :: k < j < n ==> !Extends(es[j], x))
    || exists m: nat :: k < m < n && Extends(es[m], x) && es[m].expiresAt == at && forall j :: m < j < n ==> !Extends(es[j], x)
  }

  /** The row is of the last assertion, with its user and participant, and kept as long as was said last. */
  lemma {:induction false} RowSays(run: seq<State>, es: seq<Event>, n: nat, x: nat, spId: string) returns (k: nat)
    requires IsRun(run, es) && n <= |es| && RowOf(run[n].rows, x, spId).Some?
    ensures LastIssued(es, n, x, spId, k)
    ensures var r := RowOf(run[n].rows, x, spId).value;
      r.participant == es[k].participant && r.userId == es[k].userId && KeptUntil(run, es, n, x, k, r.expiresAt)
    decreases n
  {
    hide Step, RowOf, KeptUntil;
    assert n == 0 ==> run[n].rows == [];
    if n == 0 { EmptyHasNone(x, spId); }
    var s, e := run[n - 1], es[n - 1];
    AlwaysUnique(run, es, n - 1);
    assert run[n] == Step(s, e);
    StepRow(s, e, x, spId);
    if Issues(e, x, spId) {
      k := n - 1;
      KeptNow(run, es, n - 1, x);
    } else {
      k := RowSays(run, es, n - 1, x, spId);
      KeptOn(run, es, n - 1, x, k, RowOf(s.rows, x, spId).value.expiresAt);
    }
  }

  lemma EmptyHasNone(x: nat, spId: string)
    ensures RowOf([], x, spId) == None
  {}

  lemma KeptNow(run: seq<State>, es: seq<Event>, n: nat, x: nat)
    requires IsRun(run, es) && n < |es| && x in run[n].live
    ensures KeptUntil(run, es, n + 1, x, n, run[n].live[x])
  {}

  lemma KeptOn(run: seq<State>, es: seq<Event>, n: nat, x: nat, k: nat, at: int)
    requires IsRun(run, es) && k < n < |es| && KeptUntil(run, es, n, x, k, at)
    ensures KeptUntil(run, es, n + 1, x, k, if Extends(es[n], x) then es[n].expiresAt else at)
  {
    if !Extends(es[n], x) && !(x in run[k].live && at == run[k].live[x] && forall j :: k < j < n ==> !Extends(es[j], x)) {
      var m: nat :| k < m < n && Extends(es[m], x) && es[m].expiresAt == at && forall j :: m < j < n ==> !Extends(es[j], x);
      assert forall j :: m < j < n + 1 ==> !Extends(es[j], x);
    }
  }

  /** Event `j` drops the row: its session is logged out, or a sweep comes after its expiry. */
  predicate Drops(s: State, e: Event, x: nat, spId: string) {
    || (e.LogOut? && e.session == x && e.deleteOk && e.forgetOk)
    || (e.Sweep? && RowOf(s.rows, x, spId).Some? && RowOf(s.rows, x, spId).value.expiresAt < s.now)
  }

  /** The last assertion is that of event `k`, and nothing has dropped its row since. */
  ghost predicate IsThere(run: seq<State>, es: seq<Event>, n: nat, x: nat, spId: string, k: nat)
    requires IsRun(run, es) && n <= |es|
  {
    LastIssued(es, n, x, spId, k) && forall j :: k < j < n ==> !Drops(run[j], es[j], x, spId)
  }

  lemma StepThere(s: State, e: Event, x: nat, spId: string)
    requires Possible(s, e) && Unique(s.rows)
    ensures RowOf(Step(s, e).rows, x, spId).Some? <==> Issues(e, x, spId) || (RowOf(s.rows, x, spId).Some? && !Drops(s, e, x, spId))
  {
    StepRow(s, e, x, spId);
    hide Step, RowOf, Unique, Reports;
  }

  lemma ThereNext(run: seq<State>, es: seq<Event>, n: nat, x: nat, spId: string)
    requires IsRun(run, es) && n < |es|
    ensures var m := n + 1; (exists k: nat :: IsThere(run, es, m, x, spId, k)) <==>
      Issues(es[n], x, spId) || ((exists k: nat :: IsThere(run, es, n, x, spId, k)) && !Drops(run[n], es[n], x, spId))
  {
    var m := n + 1;
    if Issues(es[n], x, spId) {
      assert IsThere(run, es, m, x, spId, n);
    } else {
      hide Drops;
      forall k: nat ensures IsThere(run, es, m, x, spId, k) <==> IsThere(run, es, n, x, spId, k) && !Drops(run[n], es[n], x, spId) {
        assert IsThere(run, es, m, x, spId, k) ==> k != n;
      }
    }
  }

  /** A row is there exactly if there was an assertion, and nothing has dropped its row since the last. */
  lemma {:induction false} RowIsThere(run: seq<State>, es: seq<Event>, n: nat, x: nat, spId: string)
    requires IsRun(run, es) && n <= |es|
    ensures RowOf(run[n].rows, x, spId).Some? <==> exists k: nat :: IsThere(run, es, n, x, spId, k)
    decreases n
  {
    hide Step, RowOf, Drops, Issues;
    if n == 0 {
      EmptyHasNone(x, spId);
    } else {
      RowIsThere(run, es, n - 1, x, spId);
      AlwaysUnique(run, es, n - 1);
      assert run[n] == Step(run[n - 1], es[n - 1]);
      StepThere(run[n - 1], es[n - 1], x, spId);
      ThereNext(run, es, n - 1, x, spId);
    }
  }

  // ---- Whether it ended ------------------------------------------------------------------------------

  /** The end of session `x` was reported by event `m`, or was to be. */
  ghost predicate EndedBy(run: seq<State>, es: seq<Event>, n: nat, x: nat, m: nat)
    requires IsRun(run, es) && n <= |es|
  {
    m < n && Reports(run[m], es[m]) && es[m].session == x
  }

  ghost predicate HasEnded(run: seq<State>, es: seq<Event>, n: nat, x: nat)
    requires IsRun(run, es) && n <= |es|
  {
    exists m: nat :: EndedBy(run, es, n, x, m)
  }

  ghost predicate GoneFor(s: State, x: nat) { x in s.issued && x !in s.live }

  lemma GoneStep(s: State, e: Event, x: nat)
    requires Possible(s, e) && Known(s) && (GoneFor(s, x) || Deletes(e, x))
    ensures GoneFor(Step(s, e), x)
  {
    hide EndListing, List, Recorded, Extended, Without, Unexpired;
  }

  /** A session that has ended is never there again. */
  lemma {:induction false} EndedIsGone(run: seq<State>, es: seq<Event>, m: nat, n: nat, x: nat)
    requires IsRun(run, es) && m < n <= |es| && Deletes(es[m], x)
    ensures GoneFor(run[n], x)
    decreases n
  {
    if m < n - 1 { EndedIsGone(run, es, m, n - 1, x); }
    AlwaysOfEnded(run, es, n - 1);
    hide Step, GoneFor, Known, Deletes;
    GoneStep(run[n - 1], es[n - 1], x);
  }

  /** A row is marked as ended exactly if the session's end was reported, then; whatever became of it since. */
  lemma {:induction false} EndedExactly(run: seq<State>, es: seq<Event>, n: nat, x: nat, spId: string)
    requires IsRun(run, es) && n <= |es| && RowOf(run[n].rows, x, spId).Some?
    ensures var r := RowOf(run[n].rows, x, spId).value;
      && (r.endedAt.Some? <==> HasEnded(run, es, n, x))
      && forall m: nat :: EndedBy(run, es, n, x, m) ==> r.endedAt == Some(run[m].now)
    decreases n
  {
    hide Step, RowOf, Reports, EndedBy;
    if n == 0 { EmptyHasNone(x, spId); }
    var s, e := run[n - 1], es[n - 1];
    AlwaysUnique(run, es, n - 1);
    assert run[n] == Step(s, e) && Possible(s, e);
    StepRow(s, e, x, spId);
    EndedNext(run, es, n - 1, x);
    if RowOf(s.rows, x, spId).Some? { EndedExactly(run, es, n - 1, x, spId); }
  }

  /** The event that ended it before the next moment is one before this one, or this one. */
  lemma EndedNext(run: seq<State>, es: seq<Event>, n: nat, x: nat)
    requires IsRun(run, es) && n < |es|
    ensures forall m: nat :: EndedBy(run, es, n + 1, x, m) ==> EndedBy(run, es, n, x, m) || (m == n && Reports(run[n], es[n]) && es[n].session == x)
    ensures HasEnded(run, es, n + 1, x) <==> HasEnded(run, es, n, x) || (Reports(run[n], es[n]) && es[n].session == x)
    ensures x in run[n].live ==> !HasEnded(run, es, n, x)
    ensures Reports(run[n], es[n]) && es[n].session == x ==> es[n].End? && x in run[n].live
  {
    hide EndListing, Hidden;
    assert Possible(run[n], es[n]);
    forall m: nat | EndedBy(run, es, n, x, m) ensures x !in run[n].live && EndedBy(run, es, n + 1, x, m) { EndedIsGone(run, es, m, n, x); }
    var now := Reports(run[n], es[n]) && es[n].session == x;
    if now { assert EndedBy(run, es, n + 1, x, n); }
    if HasEnded(run, es, n, x) {
      var m: nat :| EndedBy(run, es, n, x, m);
      assert EndedBy(run, es, n + 1, x, m);
    }
    if HasEnded(run, es, n + 1, x) && !now {
      var m: nat :| EndedBy(run, es, n + 1, x, m);
      assert EndedBy(run, es, n, x, m);
    }
  }
}
