/**
What metadata publishes, and what it no longer does: `retire` is there to stop a certificate from being
published, and it stays out whatever comes after.
*/
module KeyPublished {
  import opened Optional
  import opened KeyRotation
  import opened KeyRuns

  /** Among the rows that a reading for signing shows, one that is not retired has certificate `c`. */
  ghost predicate ShownUnretired(t: Table, c: Certificate) {
    exists i :: 0 <= i < |t| && i < 50 && t[i].state != Retired && t[i].certificate == c
  }

  lemma NewestAre(t: Table, limit: nat)
    ensures forall i :: 0 <= i < |Newest(t, limit)| ==> Newest(t, limit)[i] == t[i]
    ensures |Newest(t, limit)| == if |t| <= limit then |t| else limit
  {}

  /** The active row that signs is the only one among those read. */
  lemma {:induction false} OneActive(t: Table, i: nat)
    requires |Having(t, Active)| <= 1 && i < |t| && t[i].state == Active
    ensures First(t, Active) == Some(t[i])
    decreases |t|
  {
    if t[0].state != Active { OneActive(t[1..], i - 1); }
  }

  /** The only active row among those read is row `i`. */
  ghost predicate OnlyActive(t: Table, i: nat) {
    i < |t| && i < 50 && t[i].state == Active && forall j :: 0 <= j < |t| && j < 50 && t[j].state == Active ==> j == i
  }

  lemma {:induction false} HavingFew(t: Table, st: KeyState, i: nat)
    requires i < |t| && t[i].state == st
    ensures |Having(t, st)| == 1 <==> forall j :: 0 <= j < |t| && t[j].state == st ==> j == i
    ensures |Having(t, st)| >= 1
    decreases |t|
  {
    if t[0].state == st {
      if |Having(t, st)| == 1 {
        forall j | 1 <= j < |t| ensures t[j].state != st { assert t[1..][j - 1] == t[j]; }
      }
    } else {
      HavingFew(t[1..], st, i - 1);
      assert forall j :: 0 < j < |t| ==> t[j] == t[1..][j - 1];
    }
  }

  /**
   * Who signs, of any rows there might be: an own key exactly if its row is the only active one read,
   * and has its private key; the shared one exactly if no row read is active and none but next ones are own.
   */
  lemma SignsExactly(t: Table, root: Option<Certificate>)
    ensures SigningOf(t, root).OwnKey? <==> exists i: nat :: OnlyActive(t, i) && t[i].hasKey
    ensures forall i: nat :: OnlyActive(t, i) && t[i].hasKey ==> SigningOf(t, root).OwnKey? && SigningOf(t, root).row == t[i]
    ensures SigningOf(t, root).SharedKey? <==>
      root.Some? && forall i :: 0 <= i < |t| && i < 50 ==> t[i].state != Active && (t[i].shared || t[i].state == Next)
    ensures SigningOf(t, root).SharedKey? ==> SigningOf(t, root).certificate == root.value
  {
    var rows := Newest(t, LOAD_LIMIT);
    NewestAre(t, LOAD_LIMIT);
    forall i: nat | i < |rows| && rows[i].state == Active
      ensures |Having(rows, Active)| == 1 <==> OnlyActive(t, i)
      ensures OnlyActive(t, i) ==> First(rows, Active) == Some(t[i])
      ensures |Having(rows, Active)| >= 1
    {
      HavingFew(rows, Active, i);
      if |Having(rows, Active)| == 1 { OneActive(rows, i); }
    }
    if First(rows, Active).Some? {
      var i :| 0 <= i < |rows| && rows[i] == First(rows, Active).value;
    }
  }

  /**
   * The certificates in metadata, exactly: those of the rows read that are not retired, and, where
   * the shared key signs, its own.
   */
  lemma PublishedExactly(t: Table, root: Option<Certificate>, c: Certificate)
    requires SigningOf(t, root) != Refused
    ensures var g := SigningOf(t, root); c in g.published <==> ShownUnretired(t, c) || (g.SharedKey? && root == Some(c))
    ensures var g := SigningOf(t, root); SignedWith(g) in g.published
  {
    var rows, g := Newest(t, LOAD_LIMIT), SigningOf(t, root);
    NewestAre(t, LOAD_LIMIT);
    if g.OwnKey? {
      forall i | 0 <= i < |rows| && rows[i].state == Active ensures rows[i] == g.row { OneActive(rows, i); }
      assert g.row in rows;
    }
    assert forall i :: 0 <= i < |rows| && rows[i].state in {Next, Previous} && rows[i].certificate == c ==> t[i].state != Retired && t[i].certificate == c;
    if ShownUnretired(t, c) {
      var i :| 0 <= i < |t| && i < 50 && t[i].state != Retired && t[i].certificate == c;
      assert rows[i] == t[i];
    }
  }

  // ---- Retired for good --------------------------------------------------------------------------

  /** No row with this id is anything but retired, or has a private key. */
  ghost predicate Out(t: Table, id: nat) {
    forall i :: 0 <= i < |t| && t[i].id == id ==> t[i].state == Retired && !t[i].hasKey
  }

  /** A write that may bring the key `id` back. */
  predicate Revives(w: Write, id: nat) {
    (w.Move? && w.id == id && w.to != Retired) || (w.Insert? && w.row.id == id)
  }

  lemma {:induction false} DeleteOut(t: Table, gone: nat, id: nat)
    requires Out(t, id)
    ensures Out(DeleteRow(t, gone), id)
    decreases |t|
  {
    if t != [] {
      assert forall i :: 0 <= i < |t[1..]| ==> t[1..][i] == t[i + 1];
      DeleteOut(t[1..], gone, id);
    }
  }

  lemma ApplyOut(t: Table, w: Write, id: nat)
    requires Out(t, id) && !Revives(w, id)
    ensures Out(Apply(t, w), id)
  {
    if w.Delete? { DeleteOut(t, w.id, id); }
  }

  lemma {:induction false} WritesOut(t: Table, ws: seq<Write>, id: nat)
    requires Out(t, id) && forall i :: 0 <= i < |ws| ==> !Revives(ws[i], id)
    ensures Out(ApplyAll(t, ws), id)
    decreases |ws|
  {
    if ws != [] {
      ApplyOut(t, ws[0], id);
      WritesOut(Apply(t, ws[0]), ws[1..], id);
    }
  }

  lemma NotOut(t: Table, id: nat, row: Row)
    requires Out(t, id) && row in t && row.state != Retired
    ensures row.id != id
  {}

  lemma FirstNotOut(t: Table, st: KeyState, id: nat)
    requires Out(t, id) && st != Retired
    ensures var r := First(Newest(t, HANDLER_LIMIT), st); r.Some? ==> r.value.id != id
  {
    var r := First(Newest(t, HANDLER_LIMIT), st);
    if r.Some? {
      NewestAre(t, HANDLER_LIMIT);
      assert r.value in t;
      NotOut(t, id, r.value);
    }
  }

  /** No handler moves a retired key anywhere. */
  lemma PlansReviveNone(p: Policy, w: World, e: Event, id: nat)
    requires Out(w.rows, id) && id < w.nextId
    ensures var plan := PlanOf(p, w, e); forall i :: 0 <= i < |plan| ==> !Revives(plan[i], id)
  {
    FirstNotOut(w.rows, Active, id);
    FirstNotOut(w.rows, Next, id);
    if e.Activate? {
      var next := First(Newest(w.rows, HANDLER_LIMIT), Next);
      if next.Some? {
        RoomRevivesNone(w.rows, p.root, w.nextId, w.now, id);
        TakeOverRevivesNone(ApplyAll(w.rows, MakeRoom(w.rows, p.root, w.nextId, w.now)), next.value.id, id);
        hide MakeRoom, TakeOver;
      }
    }
  }

  lemma RoomRevivesNone(t: Table, root: Option<Certificate>, id: nat, now: int, gone: nat)
    requires Out(t, gone) && gone < id
    ensures var room := MakeRoom(t, root, id, now); forall i :: 0 <= i < |room| ==> !Revives(room[i], gone)
  {
    FirstNotOut(t, Active, gone);
  }

  lemma TakeOverRevivesNone(t: Table, next: nat, gone: nat)
    requires next != gone
    ensures var ws := TakeOver(t, next); forall i :: 0 <= i < |ws| ==> !Revives(ws[i], gone)
  {}

  lemma StepOut(p: Policy, w: World, e: Event, id: nat)
    requires Out(w.rows, id) && id < w.nextId
    ensures Out(Step(p, w, e).rows, id) && id < Step(p, w, e).nextId
  {
    if !e.Tick? {
      var plan := PlanOf(p, w, e);
      PlansReviveNone(p, w, e, id);
      var n := Through(w.rows, plan, e.writes);
      hide PlanOf;
      WritesOut(w.rows, if n < |plan| then plan[..n] else plan, id);
    }
  }

  /** A key retired and erased stays so, on any run. */
  lemma {:induction false} RetiredForGood(p: Policy, w: World, es: seq<Event>, id: nat)
    requires Out(w.rows, id) && id < w.nextId
    ensures Out(Run(p, w, es).rows, id)
    ensures id < Run(p, w, es).nextId
    decreases |es|
  {
    if es != [] {
      RetiredForGood(p, w, es[..|es| - 1], id);
      StepOut(p, Run(p, w, es[..|es| - 1]), es[|es| - 1], id);
    }
  }

  // ---- Retired, so no longer published ------------------------------------------------------------

  lemma MovedOut(t: Table, id: nat)
    ensures Out(MoveRow(t, id, Retired, true), id)
  {}

  /** Each row a retirement moves is out, and stays so. */
  lemma {:induction false} MovesOut(t: Table, ids: seq<Write>, i: nat)
    requires i < |ids| && (forall k :: 0 <= k < |ids| ==> ids[k].Delete? || (ids[k].Move? && ids[k].to == Retired)) && ids[i].Move? && ids[i].erase
    ensures Out(ApplyAll(t, ids), ids[i].id)
    decreases |ids|
  {
    if i == 0 {
      MovedOut(t, ids[0].id);
      WritesOut(Apply(t, ids[0]), ids[1..], ids[0].id);
    } else {
      MovesOut(Apply(t, ids[0]), ids[1..], i - 1);
    }
  }

  lemma RetiredIsOut(t: Table, row: Row)
    requires row in Newest(t, HANDLER_LIMIT) && row.state == Previous
    ensures RetirePlan(t) != [] && Out(ApplyAll(t, RetirePlan(t)), row.id)
  {
    var rows := Having(Newest(t, HANDLER_LIMIT), Previous);
    HavingIs(Newest(t, HANDLER_LIMIT), Previous, row);
    var i :| 0 <= i < |rows| && rows[i] == row;
    RetirementOuts(t, rows, i);
  }

  lemma RetirementOuts(t: Table, rows: seq<Row>, i: nat)
    requires i < |rows|
    ensures Out(ApplyAll(t, Retirement(t, rows)), rows[i].id)
  {
    var gone := Surplus(ApplyAll(t, RetireMoves(rows)));
    hide Surplus, ApplyAll;
    assert Retirement(t, rows)[i] == Move(rows[i].id, Retired, true);
    MovesOut(t, Retirement(t, rows), i);
  }

  /** Some other row that is not retired has this certificate. */
  ghost predicate OtherHas(t: Table, row: Row) {
    exists i :: 0 <= i < |t| && i < 50 && t[i].id != row.id && t[i].state != Retired && t[i].certificate == row.certificate
  }

  /**
   * What `retire` is for: once it has completed, whatever comes after, a certificate that was the
   * previous key's is in metadata exactly where another row read that is not retired has the same one,
   * or the shared key that signs has; and the key itself is gone.
   */
  lemma RetiredIsUnpublished(p: Policy, w: World, e: Event, es: seq<Event>, row: Row)
    requires e.Retire? && Through(w.rows, PlanOf(p, w, e), e.writes) == |PlanOf(p, w, e)|
    requires row in Newest(w.rows, 100) && row.state == Previous && row.id < w.nextId
    requires SigningOf(Run(p, Step(p, w, e), es).rows, p.root) != Refused
    ensures var t := Run(p, Step(p, w, e), es).rows; var g := SigningOf(t, p.root);
      && (row.certificate in g.published <==> OtherHas(t, row) || (g.SharedKey? && p.root == Some(row.certificate)))
      && (forall i :: 0 <= i < |t| && t[i].id == row.id ==> t[i].state == Retired && !t[i].hasKey)
  {
    RetiredIsOut(w.rows, row);
    assert Step(p, w, e).rows == ApplyAll(w.rows, RetirePlan(w.rows));
    RetiredForGood(p, Step(p, w, e), es, row.id);
    var t := Run(p, Step(p, w, e), es).rows;
    PublishedExactly(t, p.root, row.certificate);
    assert ShownUnretired(t, row.certificate) ==> OtherHas(t, row);
  }

  /** The plan of an activation that replaces an active key. */
  lemma ReplacingPlan(t: Table, root: Option<Certificate>, id: nat, now: int, force: bool, minPublished: nat)
    requires ActivatePlan(t, root, id, now, force, minPublished) != [] && First(Newest(t, HANDLER_LIMIT), Active).Some?
    ensures var keys := Newest(t, HANDLER_LIMIT);
      && First(keys, Next).Some?
      && var room := RetireMoves(Having(keys, Previous)) + [Move(First(keys, Active).value.id, Previous, false)];
      ActivatePlan(t, root, id, now, force, minPublished) == room + TakeOver(ApplyAll(t, room), First(keys, Next).value.id)
  {
    hide First, Having, Newest, RetireMoves, TakeOver, ApplyAll;
  }

  lemma OtherState(t: Table, row: Row, st: KeyState)
    requires (forall i, j :: 0 <= i < j < |t| ==> t[i].id != t[j].id) && row in Newest(t, HANDLER_LIMIT) && row.state != st
    ensures var other := First(Newest(t, HANDLER_LIMIT), st); other.Some? ==> other.value.id != row.id
  {
    NewestAre(t, HANDLER_LIMIT);
  }

  /** An activation that replaces an active key retires, and erases, the previous keys there were. */
  lemma ReplacedIsOut(p: Policy, w: World, e: Event, row: Row)
    requires e.Activate? && PlanOf(p, w, e) != [] && Through(w.rows, PlanOf(p, w, e), e.writes) == |PlanOf(p, w, e)|
    requires (forall i, j :: 0 <= i < j < |w.rows| ==> w.rows[i].id != w.rows[j].id) && First(Newest(w.rows, 100), Active).Some?
    requires row in Newest(w.rows, 100) && row.state == Previous
    ensures Out(Step(p, w, e).rows, row.id)
  {
    var t := w.rows;
    var keys := Newest(t, HANDLER_LIMIT);
    var rows, active := Having(keys, Previous), First(keys, Active).value;
    ReplacingPlan(t, p.root, w.nextId, w.now, e.force, p.minPublished);
    HavingIs(keys, Previous, row);
    OtherState(t, row, Active);
    OtherState(t, row, Next);
    var i :| 0 <= i < |rows| && rows[i] == row;
    hide First, Having, Newest, RetireMoves, TakeOver, ApplyAll, ActivatePlan, Out, Through, Step;
    ReplacingOuts(t, rows, i, active.id, First(keys, Next).value.id);
    StepIsPlan(p, w, e);
  }

  lemma ReplacingOuts(t: Table, rows: seq<Row>, i: nat, active: nat, next: nat)
    requires i < |rows| && active != rows[i].id && next != rows[i].id
    ensures var room := RetireMoves(rows) + [Move(active, Previous, false)];
      Out(ApplyAll(t, room + TakeOver(ApplyAll(t, room), next)), rows[i].id)
  {
    hide RetireMoves, TakeOver, ApplyAll, Out;
    var room := RetireMoves(rows) + [Move(active, Previous, false)];
    var rest := TakeOver(ApplyAll(t, room), next);
    TakeOverRevivesNone(ApplyAll(t, room), next, rows[i].id);
    assert room + rest == RetireMoves(rows) + ([Move(active, Previous, false)] + rest);
    RoomThenOut(t, rows, i, [Move(active, Previous, false)] + rest);
  }

  lemma StepIsPlan(p: Policy, w: World, e: Event)
    requires !e.Tick? && Through(w.rows, PlanOf(p, w, e), e.writes) == |PlanOf(p, w, e)|
    ensures Step(p, w, e).rows == ApplyAll(w.rows, PlanOf(p, w, e))
  {
    hide PlanOf, ApplyAll, Through;
  }

  lemma RoomThenOut(t: Table, rows: seq<Row>, i: nat, rest: seq<Write>)
    requires i < |rows| && forall k :: 0 <= k < |rest| ==> !Revives(rest[k], rows[i].id)
    ensures Out(ApplyAll(t, RetireMoves(rows) + rest), rows[i].id)
  {
    ApplyAllConcat(t, RetireMoves(rows), rest);
    assert RetireMoves(rows)[i] == Move(rows[i].id, Retired, true);
    MovesOut(t, RetireMoves(rows), i);
    WritesOut(ApplyAll(t, RetireMoves(rows)), rest, rows[i].id);
  }
}
