/**
Why `retire` must wait while an activation is cut short: a run in which it does not, and after
which a tenant that had its own active key is signed for with the shared one.
*/
module KeyFallback {
  import opened Optional
  import opened KeyRotation
  import KeySafety
  import opened KeyRuns
  import opened KeyGuards

  lemma FirstAbove(t: Table, row: Row, s: KeyState)
    ensures First([row] + t, s) == if row.state == s then Some(row) else First(t, s)
  {
    assert ([row] + t)[1..] == t;
  }

  lemma HavingAbove(t: Table, row: Row, s: KeyState)
    ensures Having([row] + t, s) == if row.state == s then [row] + Having(t, s) else Having(t, s)
  {
    assert ([row] + t)[1..] == t;
  }

  /** Not into the `next` or `active` slot: the UNIQUE state key has nothing against it. */
  predicate Harmless(w: Write) {
    match w
    case Insert(row) => row.state !in {Next, Active}
    case Move(_, to, _) => to !in {Next, Active}
    case Delete(_) => true
  }

  lemma HarmlessThrough(t: Table, ws: seq<Write>, k: nat)
    requires forall i :: 0 <= i < |ws| ==> Harmless(ws[i])
    ensures Leaves(t, ws, k) == CutShort(t, ws, k)
  {
    AllThrough(t, ws, k);
  }

  lemma FirstHarmless(t: Table, ws: seq<Write>)
    requires ws != [] && Harmless(ws[0])
    ensures Leaves(t, ws, 1) == Apply(t, ws[0])
  {
    assert ws[..1] == [ws[0]];
    assert |ws| == 1 ==> ws == [ws[0]];
    assert Through(t, ws, 1) == 1 + Through(Apply(t, ws[0]), ws[1..], 0);
    KeySafety.CutOne(t, ws[0], 1);
  }

  /** An activation cut short between two own keys, then a `retire`: nothing is active or previous. */
  ghost predicate Stranded(t: Table, retired: seq<Row>, next: Row) {
    && First(t, Active).None? && Having(t, Previous) == [] && First(t, Next) == Some(next)
    && Having(t, Retired) == retired
    && |t| < 50
  }

  const ROOT: Certificate := "root"
  const POLICY := Policy(Some(ROOT), 0)

  function SharedAt(w: World): Row { Row(w.nextId, true, Previous, ROOT, false, w.now) }

  /** A further activation cut short after its first write, which records the shared certificate. */
  lemma ActivateStranded(w: World, retired: seq<Row>, next: Row)
    requires Stranded(w.rows, retired, next)
    ensures Step(POLICY, w, Event.Activate(true, 1)) == World([SharedAt(w)] + w.rows, w.now, w.nextId + 1)
  {
    var t := w.rows;
    var plan := PlanOf(POLICY, w, Event.Activate(true, 1));
    var insert := Insert(SharedAt(w));
    assert MakeRoom(t, Some(ROOT), w.nextId, w.now) == [insert];
    assert plan[0] == insert;
    FirstHarmless(t, plan);
  }

  function RetiredRow(row: Row): Row { row.(state := KeyState.Retired, hasKey := false) }

  lemma SurplusAbove(t: Table, shared: Row, retired: seq<Row>, next: Row)
    requires Stranded(t, retired, next) && shared.state == Previous && |retired| <= 5
    ensures var u := [RetiredRow(shared)] + t;
      && Having(u, KeyState.Retired) == [RetiredRow(shared)] + retired
      && Surplus(u) == if |retired| < 5 then [] else [retired[4]]
  {
    HavingAbove(t, RetiredRow(shared), KeyState.Retired);
  }

  lemma MoveTop(t: Table, row: Row)
    requires forall i :: 0 <= i < |t| ==> t[i].id != row.id
    ensures MoveRow([row] + t, row.id, KeyState.Retired, true) == [RetiredRow(row)] + t
  {}

  lemma RetirePlanStranded(t: Table, shared: Row, retired: seq<Row>, next: Row)
    requires Stranded(t, retired, next) && shared.state == Previous
    requires forall i :: 0 <= i < |t| ==> t[i].id != shared.id
    ensures RetirePlan([shared] + t) == [Move(shared.id, KeyState.Retired, true)] + Deletes(Surplus([RetiredRow(shared)] + t))
  {
    var w := [shared] + t;
    var move := Move(shared.id, KeyState.Retired, true);
    HavingAbove(t, shared, Previous);
    assert RetireMoves([shared]) == [move];
    MoveTop(t, shared);
    KeySafety.CutOne(w, move, 1);
    assert Newest(w, HANDLER_LIMIT) == w && Having(w, Previous) == [shared];
  }

  lemma PruneStranded(u: Table, retired: seq<Row>)
    requires |retired| <= 5 && Surplus(u) == if |retired| < 5 then [] else [retired[4]]
    ensures CutShort(u, Deletes(Surplus(u)), 8) == if |retired| < 5 then u else DeleteRow(u, retired[4].id)
  {
    if |retired| == 5 {
      assert Deletes([retired[4]]) == [Delete(retired[4].id)];
      KeySafety.CutOne(u, Delete(retired[4].id), 8);
    } else {
      assert Deletes([]) == [];
    }
  }

  /** ... and a `retire` that takes the shared row with it, and prunes the oldest past five. */
  lemma RetireStranded(t: Table, shared: Row, retired: seq<Row>, next: Row)
    requires Stranded(t, retired, next) && shared.state == Previous && |retired| <= 5
    requires forall i :: 0 <= i < |t| ==> t[i].id != shared.id
    ensures var u := [RetiredRow(shared)] + t;
      CutShort([shared] + t, RetirePlan([shared] + t), 9) == if |retired| < 5 then u else DeleteRow(u, retired[4].id)
  {
    var w := [shared] + t;
    var u := [RetiredRow(shared)] + t;
    var move := Move(shared.id, KeyState.Retired, true);
    MoveTop(t, shared);
    KeySafety.CutOne(w, move, 1);
    SurplusAbove(t, shared, retired, next);
    RetirePlanStranded(t, shared, retired, next);
    CutShortConcat(w, [move], Deletes(Surplus(u)), 9);
    PruneStranded(u, retired);
  }

  lemma StrandedAbove(t: Table, row: Row, retired: seq<Row>, next: Row)
    requires Stranded(t, retired, next) && row.state == KeyState.Retired && |t| < 49
    ensures Stranded([row] + t, [row] + retired, next)
  {
    FirstAbove(t, row, Active);
    FirstAbove(t, row, Next);
    HavingAbove(t, row, Previous);
    HavingAbove(t, row, KeyState.Retired);
  }

  lemma RunTwo(w: World, a: Event, b: Event)
    ensures Run(POLICY, w, [a, b]) == Step(POLICY, Step(POLICY, w, a), b)
  {
    var es := [a, b];
    assert es[..1] == [a] && [a][..0] == [];
    assert Run(POLICY, w, [a]) == Step(POLICY, Run(POLICY, w, [a][..0]), a);
  }

  const ROUND := [Event.Activate(true, 1), Event.Retire(9)]

  ghost predicate Usable(w: World, retired: seq<Row>, next: Row) {
    Stranded(w.rows, retired, next) && |w.rows| < 49 && |retired| <= 5 && IdsBelow(w.rows, w.nextId)
  }

  lemma RetireHarmless(t: Table, k: nat)
    ensures Leaves(t, RetirePlan(t), k) == CutShort(t, RetirePlan(t), k)
  {
    HarmlessThrough(t, RetirePlan(t), k);
  }

  /** One round: an activation cut short, then `retire`. */
  lemma Round(w: World, retired: seq<Row>, next: Row)
    requires Usable(w, retired, next)
    ensures var u := [RetiredRow(SharedAt(w))] + w.rows;
      Run(POLICY, w, ROUND) == World(if |retired| < 5 then u else DeleteRow(u, retired[4].id), w.now, w.nextId + 2)
  {
    hide Stranded, Having, Surplus, DeleteRow;
    var v := Step(POLICY, w, ROUND[0]);
    RunTwo(w, ROUND[0], ROUND[1]);
    ActivateStranded(w, retired, next);
    RetireStranded(w.rows, SharedAt(w), retired, next);
    assert v.rows == [SharedAt(w)] + w.rows;
    RetireHarmless(v.rows, 9);
  }

  // ---- The run ----------------------------------------------------------------------------

  const START := World([Row(0, false, Active, "own", true, 0)], 0, 1)
  const OWN := Row(0, false, KeyState.Retired, "own", false, 0)
  const NEXT := Row(1, false, Next, "next", true, 0)

  /** A rotation; an activation cut short once the active key is previous; and a `retire`. */
  const OPENING := [Rotate("next", 1), Event.Activate(true, 1), Event.Retire(9)]

  function Rounds(n: nat): seq<Event> { if n == 0 then [] else Rounds(n - 1) + ROUND }

  /** Every own row but the next key is OWN. */
  ghost predicate OnlyOwn(t: Table) {
    forall i :: 0 <= i < |t| ==> t[i].shared || t[i].state == Next || t[i] == OWN
  }

  ghost predicate Piled(w: World, retired: seq<Row>, n: nat) {
    && Usable(w, retired, NEXT) && OnlyOwn(w.rows)
    && |w.rows| == n + 2 && |retired| == n + 1 && retired[n] == OWN
  }

  lemma TwoRows(a: Row, b: Row, s: KeyState)
    ensures First([a, b], s) == if a.state == s then Some(a) else if b.state == s then Some(b) else None
    ensures Having([a, b], s) == (if a.state == s then [a] else []) + (if b.state == s then [b] else [])
  {
    assert [a, b] == [a] + [b] && [b] == [b] + [];
    FirstAbove([b], a, s); FirstAbove([], b, s);
    HavingAbove([b], a, s); HavingAbove([], b, s);
  }

  const OLD := START.rows[0].(state := Previous)

  lemma OpensRotate()
    ensures Step(POLICY, START, OPENING[0]) == World([NEXT, START.rows[0]], 0, 2)
  {
    var own := START.rows[0];
    assert [own] == [own] + [];
    FirstAbove([], own, Next);
    OneWrite([own], Insert(NEXT), 1);
    assert START.rows == [own];
    assert PlanOf(POLICY, START, OPENING[0]) == [Insert(NEXT)];
  }

  lemma OpensActivate()
    ensures Step(POLICY, World([NEXT, START.rows[0]], 0, 2), OPENING[1]) == World([NEXT, OLD], 0, 3)
  {
    var t := [NEXT, START.rows[0]];
    TwoRows(NEXT, START.rows[0], Next);
    TwoRows(NEXT, START.rows[0], Active);
    TwoRows(NEXT, START.rows[0], Previous);
    var move := Move(0, Previous, false);
    assert Newest(t, HANDLER_LIMIT) == t;
    assert MakeRoom(t, Some(ROOT), 2, 0) == [move];
    var plan := ActivatePlan(t, Some(ROOT), 2, 0, true, 0);
    assert plan[0] == move;
    FirstHarmless(t, plan);
  }

  lemma OpensRetire()
    ensures Step(POLICY, World([NEXT, OLD], 0, 3), OPENING[2]) == World([NEXT, OWN], 0, 4)
  {
    var t := [NEXT, OLD];
    TwoRows(NEXT, OLD, Previous);
    TwoRows(NEXT, OWN, KeyState.Retired);
    var move := Move(0, KeyState.Retired, true);
    assert Newest(t, HANDLER_LIMIT) == t;
    assert RetireMoves([OLD]) == [move];
    assert MoveRow(t, 0, KeyState.Retired, true) == [NEXT, OWN];
    KeySafety.CutOne(t, move, 1);
    KeySafety.CutOne(t, move, 9);
    assert Surplus([NEXT, OWN]) == [] && Having(t, Previous) == [OLD];
    assert Deletes([]) == [];
    assert RetirePlan(t) == [move] + [];
    assert [move] + [] == [move];
    RetireHarmless(t, 9);
  }

  lemma Opens()
    ensures Run(POLICY, START, OPENING) == World([NEXT, OWN], 0, 4)
  {
    OpensRotate(); OpensActivate(); OpensRetire();
    assert OPENING == OPENING[..2] + [OPENING[2]] && OPENING[..2] == [OPENING[0], OPENING[1]];
    RunTwo(START, OPENING[0], OPENING[1]);
  }

  lemma OpensPiled()
    ensures Piled(World([NEXT, OWN], 0, 4), [OWN], 0)
  {
    TwoRows(NEXT, OWN, Active); TwoRows(NEXT, OWN, Previous); TwoRows(NEXT, OWN, Next); TwoRows(NEXT, OWN, KeyState.Retired);
  }

  lemma PilesUp(w: World, retired: seq<Row>, n: nat)
    requires Piled(w, retired, n) && n < 4
    ensures Piled(Run(POLICY, w, ROUND), [RetiredRow(SharedAt(w))] + retired, n + 1)
  {
    Round(w, retired, NEXT);
    StrandedAbove(w.rows, RetiredRow(SharedAt(w)), retired, NEXT);
  }

  lemma RoundsNext(n: nat)
    requires n > 0
    ensures Run(POLICY, START, OPENING + Rounds(n)) == Run(POLICY, Run(POLICY, START, OPENING + Rounds(n - 1)), ROUND)
  {
    RunConcat(POLICY, START, OPENING + Rounds(n - 1), ROUND);
    assert OPENING + Rounds(n) == OPENING + Rounds(n - 1) + ROUND;
  }

  lemma {:induction false} Piles(n: nat) returns (w: World, retired: seq<Row>)
    requires n <= 4
    ensures w == Run(POLICY, START, OPENING + Rounds(n)) && Piled(w, retired, n)
    decreases n
  {
    if n == 0 {
      Opens();
      OpensPiled();
      w, retired := World([NEXT, OWN], 0, 4), [OWN];
      assert OPENING + Rounds(0) == OPENING;
    } else {
      w, retired := Piles(n - 1);
      PilesUp(w, retired, n - 1);
      RoundsNext(n);
      w, retired := Run(POLICY, w, ROUND), [RetiredRow(SharedAt(w))] + retired;
    }
  }

  lemma {:induction false} NoneAfterDelete(t: Table, id: nat)
    ensures forall x :: x in DeleteRow(t, id) ==> x.id != id
    decreases |t|
  {
    if t != [] { NoneAfterDelete(t[1..], id); }
  }

  ghost predicate NoOwn(t: Table) {
    forall i :: 0 <= i < |t| ==> t[i].state != Active && (t[i].shared || t[i].state == Next)
  }

  lemma NoOwnMeansShared(t: Table)
    requires NoOwn(t)
    ensures SigningOf(t, POLICY.root).SharedKey?
  {}

  lemma NoOwnAfterDelete(u: Table)
    requires First(u, Active).None? && OnlyOwn(u)
    ensures NoOwn(DeleteRow(u, OWN.id))
  {
    var t := DeleteRow(u, OWN.id);
    DeleteOnlyDrops(u, OWN.id);
    NoneAfterDelete(u, OWN.id);
    forall i | 0 <= i < |t| ensures t[i].state != Active && (t[i].shared || t[i].state == Next) {
      assert t[i] in u && t[i] != OWN;
    }
  }

  /** The fifth round prunes the last row that told of the tenant's own key. */
  lemma LastRound(w: World, retired: seq<Row>)
    requires Piled(w, retired, 4)
    ensures SigningOf(Run(POLICY, w, ROUND).rows, POLICY.root).SharedKey?
  {
    var u := [RetiredRow(SharedAt(w))] + w.rows;
    Round(w, retired, NEXT);
    StrandedAbove(w.rows, RetiredRow(SharedAt(w)), retired, NEXT);
    NoOwnAfterDelete(u);
    NoOwnMeansShared(DeleteRow(u, OWN.id));
  }

  lemma OpeningIsUnguarded(rest: seq<Event>)
    ensures !Guarded(POLICY, START, OPENING + rest)
  {
    hide Allowed;
    var es := OPENING + rest;
    assert es[..2] == [OPENING[0], OPENING[1]] && es[2] == OPENING[2];
    OpensRotate(); OpensActivate();
    RunTwo(START, OPENING[0], OPENING[1]);
    RetireUnallowed();
  }

  lemma RetireUnallowed()
    ensures !Allowed(POLICY, World([NEXT, OLD], 0, 3), OPENING[2])
  {
    assert World([NEXT, OLD], 0, 3).rows[1] == OLD;
  }

  /**
   * This tenant starts with an active key of its own. With `retire` run while activations are cut
   * short, it ends up signed for with the shared key.
   */
  lemma UnguardedRetireFallsBack()
    ensures Initial(POLICY, START) && SigningOf(START.rows, POLICY.root).OwnKey?
    ensures !Guarded(POLICY, START, OPENING + Rounds(5))
    ensures SigningOf(Run(POLICY, START, OPENING + Rounds(5)).rows, POLICY.root).SharedKey?
  {
    var s := InitialIsGood(POLICY, START);
    ActiveIs(true, START.rows, s);
    KeySafety.SigningIs(START.rows, s, POLICY.root);
    OpeningIsUnguarded(Rounds(5));
    var w, retired := Piles(4);
    LastRound(w, retired);
    RoundsNext(5);
  }
}
