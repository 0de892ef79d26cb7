/**
Which requests keep an owner's key where signing looks for it, exactly; and a simple discipline that
does.
*/
module KeyGuards {
  import opened Optional
  import opened KeyRotation
  import opened KeySafety
  import opened KeyRuns

  // ---- What any other request does -----------------------------------------------------------------

  lemma {:induction false} DeletesOnlyDrop(t: Table, rows: seq<Row>)
    ensures forall x :: x in ApplyAll(t, Deletes(rows)) ==> x in t
    decreases |rows|
  {
    if rows != [] {
      DeleteOnlyDrops(t, rows[0].id);
      DeletesOnlyDrop(DeleteRow(t, rows[0].id), rows[1..]);
      assert Deletes(rows)[1..] == Deletes(rows[1..]);
    }
  }

  lemma {:induction false} DeleteOnlyDrops(t: Table, id: nat)
    ensures forall x :: x in DeleteRow(t, id) ==> x in t
    decreases |t|
  {
    if t != [] { DeleteOnlyDrops(t[1..], id); }
  }

  lemma DeletesLeaveNone(u: Table, rows: seq<Row>, k: nat)
    requires forall i :: 0 <= i < |u| ==> u[i].state == Next || u[i].state == KeyState.Retired
    ensures !OwnLive(CutShort(u, Deletes(rows), k))
  {
    var part := if k < |rows| then rows[..k] else rows;
    assert k < |rows| ==> Deletes(rows)[..k] == Deletes(part);
    DeletesOnlyDrop(u, part);
    var t := ApplyAll(u, Deletes(part));
    forall i | 0 <= i < |t| ensures t[i].state !in {Active, Previous} { assert t[i] in u; }
  }

  lemma RetiredLeavesNone(t: Table, s: Slots, rows: seq<Row>, k: nat)
    requires Fits(t, s) && Distinct(t) && s.active < 0 && s.previous >= 0 && k > 0
    ensures !OwnLive(CutShort(t, [Retiring(t, s.previous)] + Deletes(rows), k))
  {
    hide CutShort, OwnLive, Deletes;
    var move := Retiring(t, s.previous);
    MoveAt(t, s.previous, KeyState.Retired, true);
    CutOne(t, move, 1);
    CutShortConcat(t, [move], Deletes(rows), k);
    DeletesLeaveNone(Apply(t, move), rows, k - 1);
  }

  /** Run while an activation is cut short between two own keys, `retire` takes what was signing. */
  lemma RetireMidActivation(p: Policy, w: World, s: Slots, k: nat)
    requires Good(p, w, s) && HadOwn(w.rows) && k > 0 && s.active < 0
    ensures !OwnLive(CutShort(w.rows, RetirePlan(w.rows), k))
  {
    HadOwnIs(p.root.Some?, w.rows, s);
    RetirePlanIs(w.rows, s);
    RetiredLeavesNone(w.rows, s, Surplus(Apply(w.rows, Retiring(w.rows, s.previous))), k);
  }

  /** A completed `retire` leaves an own active or previous row exactly when a key is active. */
  lemma RetireExactly(p: Policy, w: World, s: Slots, k: nat)
    requires Good(p, w, s) && HadOwn(w.rows) && k >= |RetirePlan(w.rows)|
    ensures OwnLive(CutShort(w.rows, RetirePlan(w.rows), k)) <==> Has(w.rows, Active)
  {
    HasIs(w.rows, s);
    HadOwnIs(p.root.Some?, w.rows, s);
    RetirePlanIs(w.rows, s);
    if s.active >= 0 {
      var v := RetireKeeps(p.root.Some?, w.rows, s, k);
      assert !CutShort(w.rows, RetirePlan(w.rows), k)[v.active].shared;
    } else {
      RetireMidActivation(p, w, s, k);
    }
  }

  lemma NoneIsShown(t: Table, limit: nat)
    requires !OwnLive(t)
    ensures !OwnLive(Newest(t, limit))
  {
    var u := Newest(t, limit);
    assert forall i :: 0 <= i < |u| ==> u[i] == t[i];
  }

  /** What is not allowed leaves an owner with a key of its own, and no own row where signing looks. */
  lemma UnallowedHides(p: Policy, w: World, s: Slots, e: Event)
    requires Good(p, w, s) && !Allowed(p, w, e)
    ensures HadOwn(w.rows) || HadOwn(Step(p, w, e).rows)
    ensures !OwnLive(Newest(Step(p, w, e).rows, LOAD_LIMIT))
  {
    match e {
      case Rotate(_, _) =>
        var v := RotateStep(p, w, s, e);
        LiveIsMain(p.root.Some?, Step(p, w, e).rows, v, LOAD_LIMIT);
        HadOwnIs(p.root.Some?, w.rows, s);
      case Activate(_, _) =>
        var v := ActivateStep(p, w, s, e);
        LiveIsMain(p.root.Some?, Step(p, w, e).rows, v, LOAD_LIMIT);
        HadOwnIs(p.root.Some?, Step(p, w, e).rows, v);
      case Retire(k) =>
        HasIs(w.rows, s);
        NoneRefused(p, w, s, e);
        RetireMidActivation(p, w, s, k);
        NoneIsShown(Step(p, w, e).rows, LOAD_LIMIT);
    }
  }

  // ---- Exactly --------------------------------------------------------------------------------------

  /** If an owner has had a key of its own by moment `n`, signing finds an own row, active or previous. */
  ghost predicate FindsItsOwn(p: Policy, w: World, es: seq<Event>, n: nat)
    requires n <= |es|
  {
    forall m :: 0 <= m <= n && HadOwn(Run(p, w, es[..m]).rows) ==> OwnLive(Newest(Run(p, w, es[..n]).rows, LOAD_LIMIT))
  }

  ghost predicate KeepsOwn(p: Policy, w: World, es: seq<Event>) {
    forall n :: 0 <= n <= |es| ==> FindsItsOwn(p, w, es, n)
  }

  lemma GuardedFinds(p: Policy, w: World, es: seq<Event>, m: nat, n: nat)
    requires Initial(p, w) && m <= n <= |es| && Guarded(p, w, es[..n]) && HadOwn(Run(p, w, es[..m]).rows)
    ensures OwnLive(Newest(Run(p, w, es[..n]).rows, LOAD_LIMIT))
  {
    assert es[..m] + es[m..n] == es[..n];
    NeverFallsBack(p, w, es[..m], es[m..n]);
  }

  lemma GuardedKeepsOwn(p: Policy, w: World, es: seq<Event>)
    requires Initial(p, w) && Guarded(p, w, es)
    ensures KeepsOwn(p, w, es)
  {
    forall n | 0 <= n <= |es| ensures FindsItsOwn(p, w, es, n) {
      GuardedUpTo(p, w, es, n);
      forall m | 0 <= m <= n && HadOwn(Run(p, w, es[..m]).rows) ensures OwnLive(Newest(Run(p, w, es[..n]).rows, LOAD_LIMIT)) {
        GuardedFinds(p, w, es, m, n);
      }
    }
  }

  lemma InitialKeeps(p: Policy, w: World, es: seq<Event>) returns (s: Slots)
    requires Initial(p, w) && Guarded(p, w, es)
    ensures Good(p, Run(p, w, es), s)
  {
    s := InitialIsGood(p, w);
    s := RunKeeps(p, w, s, es);
  }

  lemma RunNext(p: Policy, w: World, es: seq<Event>, n: nat)
    requires n < |es|
    ensures Run(p, w, es[..n + 1]) == Step(p, Run(p, w, es[..n]), es[n])
  {
    assert es[..n + 1] == es[..n] + [es[n]];
    RunSnoc(p, w, es[..n], es[n]);
  }

  lemma AllowedAt(p: Policy, w: World, es: seq<Event>, n: nat)
    requires Initial(p, w) && n < |es| && FindsItsOwn(p, w, es, n + 1) && Guarded(p, w, es[..n])
    ensures Allowed(p, Run(p, w, es[..n]), es[n])
  {
    hide Allowed, Step;
    RunNext(p, w, es, n);
    if !Allowed(p, Run(p, w, es[..n]), es[n]) {
      var s := InitialKeeps(p, w, es[..n]);
      UnallowedHides(p, Run(p, w, es[..n]), s, es[n]);
    }
  }

  lemma GuardedOnce(p: Policy, w: World, es: seq<Event>, n: nat)
    requires n < |es| && Guarded(p, w, es[..n]) && Allowed(p, Run(p, w, es[..n]), es[n])
    ensures Guarded(p, w, es[..n + 1])
  {
    hide Allowed;
    var longer := es[..n + 1];
    forall i | 0 <= i <= n ensures Allowed(p, Run(p, w, longer[..i]), longer[i]) {
      assert longer[..i] == es[..n][..i];
      if i == n { assert es[..n][..n] == es[..n]; } else { assert longer[i] == es[..n][i]; }
    }
  }

  lemma {:induction false} KeepsOwnGuarded(p: Policy, w: World, es: seq<Event>, n: nat)
    requires Initial(p, w) && KeepsOwn(p, w, es) && n <= |es|
    ensures Guarded(p, w, es[..n])
  {
    hide Allowed, Run, FindsItsOwn;
    if n > 0 {
      KeepsOwnGuarded(p, w, es, n - 1);
      AllowedAt(p, w, es, n - 1);
      GuardedOnce(p, w, es, n - 1);
    }
  }

  /**
   * Over every run: from when an owner has a key of its own, signing finds an own row, active or
   * previous, if and only if every request was allowed.
   */
  lemma OwnKeyStaysExactly(p: Policy, w: World, es: seq<Event>)
    requires Initial(p, w)
    ensures KeepsOwn(p, w, es) <==> Guarded(p, w, es)
  {
    hide Allowed, Run, FindsItsOwn;
    assert es[..|es|] == es;
    if Guarded(p, w, es) { GuardedKeepsOwn(p, w, es); }
    if KeepsOwn(p, w, es) { KeepsOwnGuarded(p, w, es, |es|); }
  }

  // ---- A discipline that is enough --------------------------------------------------------------------

  /** `retire` writes only while a key is active: never while an activation is cut short. */
  predicate WaitsToRetire(w: World, e: Event) {
    e.Retire? ==> Has(w.rows, Active) || !Has(w.rows, Previous) || e.writes == 0
  }

  function Shareds(t: Table): nat {
    if t == [] then 0 else (if t[0].shared then 1 else 0) + Shareds(t[1..])
  }

  lemma {:induction false} SharedsAbove(t: Table, i: nat, next: int)
    requires i <= |t| && forall j :: 0 <= j < i && j != next ==> t[j].shared
    ensures i <= Shareds(t) + if 0 <= next < i then 1 else 0
    decreases i
  {
    if i > 0 {
      forall j | 0 <= j < i - 1 && j != next - 1 ensures t[1..][j].shared { assert t[1..][j] == t[j + 1]; }
      SharedsAbove(t[1..], i - 1, next - 1);
    }
  }

  lemma {:induction false} MovedShareds(t: Table, id: nat, to: KeyState, erase: bool)
    ensures Shareds(MoveRow(t, id, to, erase)) == Shareds(t)
    decreases |t|
  {
    if t != [] {
      assert MoveRow(t, id, to, erase)[1..] == MoveRow(t[1..], id, to, erase);
      MovedShareds(t[1..], id, to, erase);
    }
  }

  lemma {:induction false} DeletedShareds(t: Table, id: nat)
    ensures Shareds(DeleteRow(t, id)) <= Shareds(t)
    decreases |t|
  {
    if t != [] {
      DeletedShareds(t[1..], id);
      assert ([t[0]] + DeleteRow(t[1..], id))[1..] == DeleteRow(t[1..], id);
    }
  }

  predicate RecordsShared(w: Write) { w.Insert? && w.row.shared }

  lemma AppliedShareds(t: Table, w: Write)
    ensures Shareds(Apply(t, w)) <= Shareds(t) + if RecordsShared(w) then 1 else 0
  {
    match w {
      case Insert(row) => assert ([row] + t)[1..] == t;
      case Move(id, to, erase) => MovedShareds(t, id, to, erase);
      case Delete(id) => DeletedShareds(t, id);
    }
  }

  /** Only the first of these writes, if any, records the shared key. */
  lemma {:induction false} WrittenShareds(t: Table, ws: seq<Write>)
    requires forall i :: 0 < i < |ws| ==> !RecordsShared(ws[i])
    ensures Shareds(ApplyAll(t, ws)) <= Shareds(t) + if ws != [] && RecordsShared(ws[0]) then 1 else 0
    decreases |ws|
  {
    if ws != [] {
      AppliedShareds(t, ws[0]);
      WrittenShareds(Apply(t, ws[0]), ws[1..]);
    }
  }

  /** A run like that records the shared key once, and retires it only once the first own key signs. */
  ghost predicate Tidy(p: Policy, w: World, s: Slots) {
    && Good(p, w, s) && Shareds(w.rows) <= 1
    && (!OwnLast(w.rows, s) && s.previous < 0 ==> Shareds(w.rows) == 0)
  }

  lemma TidyAllows(p: Policy, w: World, s: Slots, e: Event)
    requires Tidy(p, w, s) && WaitsToRetire(w, e)
    ensures Allowed(p, w, e)
  {
    hide MakeRoom, Replacement;
    HadOwnIs(p.root.Some?, w.rows, s);
    LiveIsMain(p.root.Some?, w.rows, s, LOAD_LIMIT - 1);
    if OwnLast(w.rows, s) {
      SharedsAbove(w.rows, Main(s), s.next);
    } else {
      SharedsAbove(w.rows, |w.rows|, s.next);
      if e.Activate? && s.next >= 0 {
        ActivationAllowed(p, w, s, e);
        RoomIsOne(w.rows, s, p.root, w.nextId, w.now);
      } else if e.Activate? {
        NothingToActivate(p, w, s, e);
      }
    }
  }

  /** An activation records the shared key, if at all, first, and where there is no row before it signing or signed. */
  lemma ReplacementRecords(t: Table, s: Slots, root: Option<Certificate>, id: nat, now: int, i: nat)
    requires Legal(root.Some?, t, s) && Near(t, s) && s.next >= 0 && i < |Replacement(t, t[s.next].id, root, id, now)|
    ensures RecordsShared(Replacement(t, t[s.next].id, root, id, now)[i]) ==> i == 0 && !OwnLast(t, s) && s.previous < 0
  {
    hide Leads, AllShared, Distinct, MakeRoom, ApplyAll, Surplus, Near;
    MakeRoomIs(t, s, root, id, now);
    var room := MakeRoom(t, root, id, now);
    var rest := TakeOver(ApplyAll(t, room), t[s.next].id);
    if i < |room| { assert (room + rest)[i] == room[i]; } else { assert (room + rest)[i] == rest[i - |room|]; }
  }

  lemma ActivateShareds(p: Policy, w: World, s: Slots, e: Event)
    requires Tidy(p, w, s) && e.Activate?
    ensures Shareds(Step(p, w, e).rows) <= 1
  {
    hide Replacement, MakeRoom, Shareds, Leads, AllShared, ActivatePlan;
    var plan := PlanOf(p, w, e);
    NoneRefused(p, w, s, e);
    if s.next >= 0 && plan != [] {
      ActivatePlanIs(p, w, s, e);
      forall i | 0 <= i < |plan| ensures RecordsShared(plan[i]) ==> i == 0 && !OwnLast(w.rows, s) && s.previous < 0 {
        ReplacementRecords(w.rows, s, p.root, w.nextId, w.now, i);
      }
      WrittenShareds(w.rows, if e.writes < |plan| then plan[..e.writes] else plan);
    } else if s.next < 0 {
      NothingToActivate(p, w, s, e);
    }
  }

  lemma RetireShareds(p: Policy, w: World, s: Slots, e: Event)
    requires Good(p, w, s) && e.Retire?
    ensures Shareds(Step(p, w, e).rows) <= Shareds(w.rows)
  {
    hide Shareds, Leads, AllShared, Distinct, Surplus, MoveRow;
    NoneRefused(p, w, s, e);
    RetirePlanIs(w.rows, s);
    var plan := PlanOf(p, w, e);
    WrittenShareds(w.rows, if e.writes < |plan| then plan[..e.writes] else plan);
  }

  lemma SlotsAre(t: Table, s: Slots, v: Slots)
    requires Fits(t, s) && Fits(t, v)
    ensures s == v
  {
    assert s.next >= 0 ==> t[s.next].state == Next;
    assert v.next >= 0 ==> t[v.next].state == Next;
    assert s.active >= 0 ==> t[s.active].state == Active;
    assert v.active >= 0 ==> t[v.active].state == Active;
    assert s.previous >= 0 ==> t[s.previous].state == Previous;
    assert v.previous >= 0 ==> t[v.previous].state == Previous;
  }

  /** A `retire` that waits does nothing before there is an own key. */
  lemma RetireTidies(p: Policy, w: World, s: Slots, e: Event)
    requires Good(p, w, s) && e.Retire? && WaitsToRetire(w, e) && !OwnLast(w.rows, s)
    ensures Step(p, w, e).rows == w.rows
  {
    NoneRefused(p, w, s, e);
    HasIs(w.rows, s);
    RetirePlanIs(w.rows, s);
    assert PlanOf(p, w, e) != [] ==> PlanOf(p, w, e)[..0] == [];
  }

  /** An activation before there is an own key does nothing, or leaves the shared key recorded. */
  lemma ActivateTidies(p: Policy, w: World, s: Slots, e: Event)
    requires Good(p, w, s) && e.Activate? && !OwnLast(w.rows, s)
    ensures Step(p, w, e).rows == w.rows || Has(Step(p, w, e).rows, Previous)
  {
    NoneRefused(p, w, s, e);
    if s.next >= 0 {
      var v := ActivateKeeps(w.rows, s, p.root, w.nextId, w.now, e.force, p.minPublished, e.writes);
      HasIs(Step(p, w, e).rows, v);
      assert PlanOf(p, w, e) != [] ==> PlanOf(p, w, e)[..0] == [];
    } else {
      NothingToActivate(p, w, s, e);
    }
  }

  lemma RotateShareds(p: Policy, w: World, s: Slots, e: Event)
    requires Good(p, w, s) && e.Rotate?
    ensures Shareds(Step(p, w, e).rows) <= Shareds(w.rows)
  {
    var v := RotateStep(p, w, s, e);
    assert s.next < 0 && e.writes > 0 ==> Step(p, w, e).rows[1..] == w.rows;
  }

  lemma StepShareds(p: Policy, w: World, s: Slots, e: Event)
    requires Tidy(p, w, s)
    ensures Shareds(Step(p, w, e).rows) <= 1
    ensures !e.Activate? ==> Shareds(Step(p, w, e).rows) <= Shareds(w.rows)
  {
    match e {
      case Tick(_) =>
      case Rotate(_, _) => RotateShareds(p, w, s, e);
      case Activate(_, _) => ActivateShareds(p, w, s, e);
      case Retire(_) => RetireShareds(p, w, s, e);
    }
  }

  /** Before there is an own key, what leaves no trace of the shared key finds none. */
  lemma StepTidies(p: Policy, w: World, s: Slots, e: Event, v: Slots)
    requires Tidy(p, w, s) && WaitsToRetire(w, e) && !OwnLast(w.rows, s)
    requires Fits(Step(p, w, e).rows, v) && v.previous < 0
    ensures Shareds(Step(p, w, e).rows) == 0
  {
    HasIs(Step(p, w, e).rows, v);
    if e.Activate? { ActivateTidies(p, w, s, e); }
    else if e.Retire? { RetireTidies(p, w, s, e); }
    else if e.Rotate? {
      var u := RotateStep(p, w, s, e);
      SlotsAre(Step(p, w, e).rows, u, v);
      RotateShareds(p, w, s, e);
    }
    if Step(p, w, e).rows == w.rows { SlotsAre(w.rows, s, v); }
  }

  lemma TidyStep(p: Policy, w: World, s: Slots, e: Event) returns (v: Slots)
    requires Tidy(p, w, s) && WaitsToRetire(w, e)
    ensures Tidy(p, Step(p, w, e), v)
  {
    hide Shareds, Step, Leads, AllShared, Allowed;
    TidyAllows(p, w, s, e);
    v := StepKeeps(p, w, s, e);
    StepShareds(p, w, s, e);
    HadOwnIs(p.root.Some?, w.rows, s);
    HadOwnIs(p.root.Some?, Step(p, w, e).rows, v);
    if !OwnLast(Step(p, w, e).rows, v) && v.previous < 0 { StepTidies(p, w, s, e, v); }
  }

  lemma {:induction false} TidyRuns(p: Policy, w: World, es: seq<Event>, n: nat) returns (s: Slots)
    requires Initial(p, w) && n <= |es| && forall i :: 0 <= i < |es| ==> WaitsToRetire(Run(p, w, es[..i]), es[i])
    ensures Guarded(p, w, es[..n]) && Tidy(p, Run(p, w, es[..n]), s)
  {
    if n == 0 {
      s := InitialIsGood(p, w);
      assert w.rows != [] ==> w.rows[1..] == [];
    } else {
      s := TidyRuns(p, w, es, n - 1);
      TidyAllows(p, Run(p, w, es[..n - 1]), s, es[n - 1]);
      GuardedOnce(p, w, es, n - 1);
      RunNext(p, w, es, n - 1);
      s := TidyStep(p, Run(p, w, es[..n - 1]), s, es[n - 1]);
    }
  }

  /** Over every run: if no `retire` writes while an activation is cut short, every request is allowed. */
  lemma WaitingToRetireIsEnough(p: Policy, w: World, es: seq<Event>)
    requires Initial(p, w) && forall i :: 0 <= i < |es| ==> WaitsToRetire(Run(p, w, es[..i]), es[i])
    ensures Guarded(p, w, es) && KeepsOwn(p, w, es)
  {
    var s := TidyRuns(p, w, es, |es|);
    assert es[..|es|] == es;
    OwnKeyStaysExactly(p, w, es);
  }
}
