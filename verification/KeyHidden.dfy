/**
A tenant's first key under rows of the shared one: activations cut short, each followed by a `retire`
cut short before it prunes, pile them up. Readings of 50 rows then miss the tenant's own key.
*/
module KeyHidden {
  import opened Optional
  import opened KeyRotation
  import opened KeySafety
  import opened KeyRuns
  import opened KeyGuards

  const ROOT: Certificate := "root"
  const EMPTY := World([], 0, 0)
  const FIRST := Row(0, false, Next, "own", true, 0)

  function WaitingFor(ms: nat): Policy { Policy(Some(ROOT), ms) }

  /** `n` retired records of the shared key, on top of the first key. */
  function Stack(n: nat): Table {
    if n == 0 then [FIRST] else [Row(2 * n - 1, true, KeyState.Retired, ROOT, false, 0)] + Stack(n - 1)
  }

  function Stacked(n: nat): World { World(Stack(n), 0, 2 * n + 1) }

  function At(n: nat): Slots { Slots(n, -1, -1) }

  lemma {:induction false} StackIs(n: nat)
    ensures |Stack(n)| == n + 1 && Stack(n)[n] == FIRST
    ensures forall i :: 0 <= i < n ==> Stack(n)[i] == Row(2 * (n - i) - 1, true, KeyState.Retired, ROOT, false, 0)
  {
    if n > 0 { StackIs(n - 1); }
  }

  lemma StackIsGood(n: nat, ms: nat)
    ensures Good(WaitingFor(ms), Stacked(n), At(n))
  {
    StackIs(n);
  }

  // ---- One round ------------------------------------------------------------------------------------

  const ROUND := [Event.Activate(true, 1), Event.Retire(1)]

  function Recorded(n: nat): Table { [SharedRow(ROOT, 2 * n + 1, 0)] + Stack(n) }

  /** A handler that gets one write through leaves its plan's first write. */
  lemma OneThrough(p: Policy, w: World, s: Slots, e: Event, first: Write)
    requires Good(p, w, s) && (e.Activate? || e.Retire?) && e.writes == 1
    requires PlanOf(p, w, e) != [] && PlanOf(p, w, e)[0] == first
    ensures Step(p, w, e) == World(Apply(w.rows, first), w.now, w.nextId + 1)
  {
    hide PlanOf, Good, Apply;
    var plan := PlanOf(p, w, e);
    NoneRefused(p, w, s, e);
    CutOne(w.rows, first, 1);
    assert plan[..1] == [first];
    assert |plan| == 1 ==> plan == [first];
  }

  lemma ActivateFirst(n: nat, ms: nat)
    requires n < HANDLER_LIMIT
    ensures var plan := PlanOf(WaitingFor(ms), Stacked(n), ROUND[0]); plan != [] && plan[0] == Insert(SharedRow(ROOT, 2 * n + 1, 0))
  {
    hide MakeRoom, TakeOver, Stack, Leads, AllShared, Distinct;
    var w := Stacked(n);
    StackIs(n);
    StackIsGood(n, ms);
    MakeRoomIs(w.rows, At(n), Some(ROOT), w.nextId, w.now);
    ReadsAll(w.rows, At(n), HANDLER_LIMIT);
  }

  lemma ActivateOnce(n: nat, ms: nat)
    requires n < HANDLER_LIMIT
    ensures Step(WaitingFor(ms), Stacked(n), ROUND[0]) == World(Recorded(n), 0, 2 * n + 2)
  {
    hide PlanOf, Good, Step, Stack;
    StackIsGood(n, ms);
    ActivateFirst(n, ms);
    OneThrough(WaitingFor(ms), Stacked(n), At(n), ROUND[0], Insert(SharedRow(ROOT, 2 * n + 1, 0)));
  }

  lemma RecordedIsGood(n: nat, ms: nat)
    ensures Good(WaitingFor(ms), World(Recorded(n), 0, 2 * n + 2), Slots(n + 1, -1, 0))
  {
    StackIs(n);
    var t := Recorded(n);
    assert forall i :: 1 <= i < |t| ==> t[i] == Stack(n)[i - 1];
  }

  lemma RetireFirst(n: nat, ms: nat)
    ensures var w := World(Recorded(n), 0, 2 * n + 2); PlanOf(WaitingFor(ms), w, ROUND[1]) != [] && PlanOf(WaitingFor(ms), w, ROUND[1])[0] == Retiring(w.rows, 0)
  {
    hide Stack, Surplus, Leads, AllShared, Distinct;
    RecordedIsGood(n, ms);
    RetirePlanIs(Recorded(n), Slots(n + 1, -1, 0));
  }

  lemma TopRetires(t: Table, row: Row)
    requires forall i :: 0 <= i < |t| ==> t[i].id != row.id
    ensures MoveRow([row] + t, row.id, KeyState.Retired, true) == [row.(state := KeyState.Retired, hasKey := false)] + t
  {}

  lemma StackNext(n: nat)
    ensures Stack(n + 1) == [Row(2 * n + 1, true, KeyState.Retired, ROOT, false, 0)] + Stack(n)
  {}

  lemma RetiredIs(n: nat)
    ensures Apply(Recorded(n), Retiring(Recorded(n), 0)) == Stack(n + 1)
  {
    hide Stack, MoveRow;
    StackIs(n);
    StackNext(n);
    TopRetires(Stack(n), SharedRow(ROOT, 2 * n + 1, 0));
  }

  lemma RetireOnce(n: nat, ms: nat)
    ensures Step(WaitingFor(ms), World(Recorded(n), 0, 2 * n + 2), ROUND[1]) == Stacked(n + 1)
  {
    hide PlanOf, Good, Step, Stack, Apply;
    RecordedIsGood(n, ms);
    RetireFirst(n, ms);
    RetiredIs(n);
    OneThrough(WaitingFor(ms), World(Recorded(n), 0, 2 * n + 2), Slots(n + 1, -1, 0), ROUND[1], Retiring(Recorded(n), 0));
  }

  // ---- The piling up --------------------------------------------------------------------------------

  function Piling(n: nat): seq<Event> {
    if n == 0 then [Rotate("own", 1)] else Piling(n - 1) + ROUND
  }

  lemma Starts(ms: nat)
    ensures Run(WaitingFor(ms), EMPTY, Piling(0)) == Stacked(0)
  {
    var e := Rotate("own", 1);
    OneWrite([], Insert(FIRST), 1);
    assert PlanOf(WaitingFor(ms), EMPTY, e) == [Insert(FIRST)];
    assert [FIRST] + [] == [FIRST];
    assert [e][..0] == [];
    assert Run(WaitingFor(ms), EMPTY, [e]) == Step(WaitingFor(ms), Run(WaitingFor(ms), EMPTY, [e][..0]), e);
  }

  lemma RunTwice(p: Policy, w: World, es: seq<Event>, a: Event, b: Event)
    ensures Run(p, w, es + [a, b]) == Step(p, Step(p, Run(p, w, es), a), b)
  {
    assert es + [a, b] == (es + [a]) + [b];
    RunSnoc(p, w, es, a);
    RunSnoc(p, w, es + [a], b);
  }

  lemma {:induction false} PilesUp(n: nat, ms: nat)
    requires n <= HANDLER_LIMIT
    ensures Run(WaitingFor(ms), EMPTY, Piling(n)) == Stacked(n)
  {
    hide Run, Step, Stack;
    if n == 0 {
      Starts(ms);
    } else {
      PilesUp(n - 1, ms);
      ActivateOnce(n - 1, ms);
      RetireOnce(n - 1, ms);
      RunTwice(WaitingFor(ms), EMPTY, Piling(n - 1), ROUND[0], ROUND[1]);
    }
  }

  // ---- The own key out of sight -----------------------------------------------------------------------

  /** Of rows all shared and none active, none stands for a key of the owner's own. */
  lemma SharedSigns(t: Table, root: Certificate)
    requires var u := Newest(t, LOAD_LIMIT); forall i :: 0 <= i < |u| ==> u[i].shared && u[i].state != Active
    ensures SigningOf(t, Some(root)).SharedKey?
  {}

  lemma ActivateLands(n: nat, ms: nat) returns (v: Slots)
    requires LOAD_LIMIT - 1 <= n < HANDLER_LIMIT
    ensures Legal(true, Step(WaitingFor(ms), Stacked(n), Event.Activate(true, 2)).rows, v) && v.active >= LOAD_LIMIT && v.next < 0
  {
    hide SigningOf;
    var p, w, e := WaitingFor(ms), Stacked(n), Event.Activate(true, 2);
    StackIs(n);
    StackIsGood(n, ms);
    NoneRefused(p, w, At(n), e);
    ReadsAll(w.rows, At(n), HANDLER_LIMIT);
    MakeRoomIs(w.rows, At(n), p.root, w.nextId, w.now);
    v := ActivateKeeps(w.rows, At(n), p.root, w.nextId, w.now, true, ms, 2);
  }

  /** An activation that is cut short before it prunes, with the own key past the rows that are read. */
  lemma ActivateHides(n: nat, ms: nat)
    requires LOAD_LIMIT - 1 <= n < HANDLER_LIMIT
    ensures var t := Step(WaitingFor(ms), Stacked(n), Event.Activate(true, 2)).rows;
      HadOwn(t) && OwnLive(t) && !OwnLive(Newest(t, LOAD_LIMIT)) && SigningOf(t, Some(ROOT)).SharedKey?
  {
    hide SigningOf, Step, Legal, HadOwn, OwnLive;
    var v := ActivateLands(n, ms);
    HidesMain(Step(WaitingFor(ms), Stacked(n), Event.Activate(true, 2)).rows, v);
  }

  lemma HidesMain(t: Table, v: Slots)
    requires Legal(true, t, v) && v.active >= LOAD_LIMIT && v.next < 0
    ensures HadOwn(t) && OwnLive(t) && !OwnLive(Newest(t, LOAD_LIMIT)) && SigningOf(t, Some(ROOT)).SharedKey?
  {
    HadOwnIs(true, t, v);
    assert !t[v.active].shared;
    LiveIsMain(true, t, v, LOAD_LIMIT);
    SharedSigns(t, ROOT);
  }

  /**
   * A tenant whose own key is active, and which is signed for with the shared key all the same: its
   * first activation comes after 49 rounds or more.
   */
  lemma HiddenBehindShared(n: nat, ms: nat)
    requires LOAD_LIMIT - 1 <= n < HANDLER_LIMIT
    ensures var es := Piling(n) + [Event.Activate(true, 2)]; var t := Run(WaitingFor(ms), EMPTY, es).rows;
      && Initial(WaitingFor(ms), EMPTY) && !Guarded(WaitingFor(ms), EMPTY, es)
      && HadOwn(t) && OwnLive(t) && SigningOf(t, Some(ROOT)).SharedKey?
  {
    var p, e := WaitingFor(ms), Event.Activate(true, 2);
    var es := Piling(n) + [e];
    PilesUp(n, ms);
    ActivateHides(n, ms);
    RunSnoc(p, EMPTY, Piling(n), e);
    assert es[..|es|] == es;
    if Guarded(p, EMPTY, es) { GuardedFinds(p, EMPTY, es, |es|, |es|); }
  }

  // ---- A key that signs and was not shown ----------------------------------------------------------------

  lemma GuardedSnoc(p: Policy, w: World, es: seq<Event>, e: Event)
    requires Guarded(p, w, es) && Allowed(p, Run(p, w, es), e)
    ensures Guarded(p, w, es + [e])
  {
    hide Allowed, Run;
    assert (es + [e])[..|es|] == es && (es + [e])[..|es| + 1] == es + [e];
    GuardedOnce(p, w, es + [e], |es|);
  }

  lemma RoundAllowed(n: nat, ms: nat)
    requires n < HANDLER_LIMIT
    ensures Allowed(WaitingFor(ms), Stacked(n), ROUND[0])
    ensures Allowed(WaitingFor(ms), World(Recorded(n), 0, 2 * n + 2), ROUND[1])
  {
    hide Stack, PlanOf, Leads, AllShared, Distinct;
    var w := Stacked(n);
    StackIs(n);
    StackIsGood(n, ms);
    MakeRoomIs(w.rows, At(n), Some(ROOT), w.nextId, w.now);
    ActivationAllowed(WaitingFor(ms), w, At(n), ROUND[0]);
    RecordedIsGood(n, ms);
    HadOwnIs(true, Recorded(n), Slots(n + 1, -1, 0));
  }

  lemma {:induction false} PilingAllowed(n: nat, ms: nat)
    requires n <= HANDLER_LIMIT
    ensures Guarded(WaitingFor(ms), EMPTY, Piling(n))
  {
    hide Allowed, Step, Stack, Run;
    var p := WaitingFor(ms);
    if n == 0 {
      FirstRotation(ms);
    } else {
      PilingAllowed(n - 1, ms);
      PilesUp(n - 1, ms);
      RoundAllowed(n - 1, ms);
      ActivateOnce(n - 1, ms);
      RunSnoc(p, EMPTY, Piling(n - 1), ROUND[0]);
      GuardedSnoc(p, EMPTY, Piling(n - 1), ROUND[0]);
      GuardedSnoc(p, EMPTY, Piling(n - 1) + [ROUND[0]], ROUND[1]);
      assert Piling(n - 1) + [ROUND[0]] + [ROUND[1]] == Piling(n);
    }
  }

  lemma FirstRotation(ms: nat)
    ensures Guarded(WaitingFor(ms), EMPTY, Piling(0))
  {
    assert [Rotate("own", 1)][..0] == [];
  }

  lemma {:induction false} ManyHaving(t: Table, st: KeyState, from: nat, upTo: nat)
    requires from <= upTo <= |t| && forall i :: from <= i < upTo ==> t[i].state == st
    ensures |Having(t, st)| >= upTo - from
    decreases |t|
  {
    if from < upTo {
      forall i | from <= i + 1 < upTo && i >= 0 ensures t[1..][i].state == st { assert t[1..][i] == t[i + 1]; }
      ManyHaving(t[1..], st, if from == 0 then 0 else from - 1, upTo - 1);
    }
  }

  function Aged(n: nat, ms: nat): World { World(Stack(n), ms, 2 * n + 1) }

  /** An activation that completes prunes all but five of the rows of the shared key. */
  lemma PrunesToFew(n: nat, ms: nat)
    requires n + 2 <= HANDLER_LIMIT
    ensures FirstLeaves(Stack(n), 0, Some(ROOT), 2 * n + 1, ms, n + 2) <= 7
  {
    hide MakeRoom, Leads, AllShared, Distinct, Stack, TakeOver, Having;
    StackIs(n);
    StackIsGood(n, ms);
    MakeRoomIs(Stack(n), At(n), Some(ROOT), 2 * n + 1, ms);
    var shared := SharedRow(ROOT, 2 * n + 1, ms);
    CutOne(Stack(n), Insert(shared), 1);
    PrunesMany(n, shared);
  }

  lemma PrunedIs(t: Table, next: nat)
    ensures Pruned(t, next) == |Surplus(MoveRow(t, next, Active, false))|
  {
    hide Surplus, MoveRow;
    CutOne(t, Move(next, Active, false), 1);
  }

  lemma RetiredBelow(n: nat, shared: Row)
    ensures var u := MoveRow([shared] + Stack(n), 0, Active, false); |u| == n + 2 && |Having(u, KeyState.Retired)| >= n
  {
    hide Stack, Having;
    StackIs(n);
    var u := MoveRow([shared] + Stack(n), 0, Active, false);
    assert forall i :: 1 <= i <= n ==> u[i].state == KeyState.Retired;
    ManyHaving(u, KeyState.Retired, 1, n + 1);
  }

  lemma PrunesMany(n: nat, shared: Row)
    requires n + 2 <= HANDLER_LIMIT
    ensures Pruned([shared] + Stack(n), 0) + 5 >= n
  {
    hide Stack, Having, MoveRow, Pruned;
    PrunedIs([shared] + Stack(n), 0);
    RetiredBelow(n, shared);
  }

  lemma AgedIsGood(n: nat, ms: nat)
    ensures Good(WaitingFor(ms), Aged(n, ms), At(n)) && Aged(n, ms).rows[n] == FIRST && |Stack(n)| == n + 1
  {
    hide Stack;
    StackIs(n);
    StackIsGood(n, ms);
  }

  lemma Unseen(n: nat, ms: nat)
    requires n >= LOAD_LIMIT
    ensures First(Stack(n), Next) == Some(FIRST) && !Shows(Aged(n, ms), FIRST)
  {
    hide Stack, Leads, AllShared, Distinct;
    AgedIsGood(n, ms);
    ReadsAll(Stack(n), At(n), LOAD_LIMIT);
    FirstIs(true, Stack(n), At(n));
  }

  lemma LastPlans(n: nat, ms: nat)
    requires n <= HANDLER_LIMIT - 2
    ensures var p, w, e := WaitingFor(ms), Aged(n, ms), Event.Activate(false, n + 2);
      && PlanOf(p, w, e) != [] && Reaches(w.rows, p.root, w.nextId, w.now, n + 2)
      && Good(p, w, At(n)) && At(n).next >= 0 && FirstLeaves(w.rows, w.rows[At(n).next].id, p.root, w.nextId, w.now, n + 2) <= LOAD_LIMIT
  {
    hide Stack, Leads, AllShared, Distinct, MakeRoom, TakeOver, FirstLeaves, Allowed;
    AgedIsGood(n, ms);
    var w := Aged(n, ms);
    ReadsAll(w.rows, At(n), HANDLER_LIMIT);
    MakeRoomIs(w.rows, At(n), Some(ROOT), w.nextId, w.now);
    PrunesToFew(n, ms);
  }

  lemma LastIs(n: nat, ms: nat)
    requires n <= HANDLER_LIMIT - 2
    ensures var p, w, e := WaitingFor(ms), Aged(n, ms), Event.Activate(false, n + 2);
      PlanOf(p, w, e) != [] && Reaches(w.rows, p.root, w.nextId, w.now, n + 2) && Allowed(p, w, e)
  {
    hide Stack, Leads, AllShared, Distinct, MakeRoom, TakeOver, FirstLeaves, Allowed, Reaches, PlanOf, Good, OwnLast;
    LastPlans(n, ms);
    ActivationAllowed(WaitingFor(ms), Aged(n, ms), At(n), Event.Activate(false, n + 2));
  }

  lemma ActivateUnseen(n: nat, ms: nat)
    requires n <= HANDLER_LIMIT - 2
    ensures var p, w, e := WaitingFor(ms), Aged(n, ms), Event.Activate(false, n + 2);
      SigningOf(Step(p, w, e).rows, p.root).OwnKey? && SigningOf(Step(p, w, e).rows, p.root).row == FIRST.(state := Active)
  {
    hide Stack, Leads, AllShared, Distinct, MakeRoom, FirstLeaves, SigningOf, Allowed, Step, Reaches, CutShort, Replacement;
    var p, w, e := WaitingFor(ms), Aged(n, ms), Event.Activate(false, n + 2);
    AgedIsGood(n, ms);
    LastIs(n, ms);
    NoneRefused(p, w, At(n), e);
    var x := ActivateStep(p, w, At(n), e);
    var v := ActivateKeeps(w.rows, At(n), p.root, w.nextId, w.now, false, ms, n + 2);
    SlotsAre(Step(p, w, e).rows, x, v);
    SigningIs(Step(p, w, e).rows, v, p.root);
  }

  /**
   * A tenant's first key that comes to sign after the minimum time, unforced, while metadata has not
   * shown it: nothing else that is asked of it is out of order.
   */
  lemma SignsUnseen(n: nat, ms: nat)
    requires LOAD_LIMIT <= n <= HANDLER_LIMIT - 2
    ensures var p, es, last := WaitingFor(ms), Piling(n) + [Tick(ms)], Event.Activate(false, n + 2);
      var w, t := Run(p, EMPTY, es), Run(p, EMPTY, es + [last]).rows;
      && Guarded(p, EMPTY, es + [last])
      && Run(p, EMPTY, Piling(n)).now == 0 && w.now == ms
      && First(Run(p, EMPTY, Piling(n)).rows, Next) == Some(FIRST) && !Shows(Run(p, EMPTY, Piling(n)), FIRST) && !Shows(w, FIRST)
      && SigningOf(t, p.root).OwnKey? && SigningOf(t, p.root).row == FIRST.(state := Active)
  {
    hide Stack, Allowed, SigningOf, FirstLeaves, PlanOf;
    var p, last := WaitingFor(ms), Event.Activate(false, n + 2);
    PilesUp(n, ms);
    PilingAllowed(n, ms);
    RunSnoc(p, EMPTY, Piling(n), Tick(ms));
    TickAllowed(p, Stacked(n), ms);
    GuardedSnoc(p, EMPTY, Piling(n), Tick(ms));
    Unseen(n, 0);
    Unseen(n, ms);
    LastIs(n, ms);
    ActivateUnseen(n, ms);
    RunSnoc(p, EMPTY, Piling(n) + [Tick(ms)], last);
    GuardedSnoc(p, EMPTY, Piling(n) + [Tick(ms)], last);
  }

  lemma TickAllowed(p: Policy, w: World, ms: nat)
    ensures Allowed(p, w, Tick(ms)) && Step(p, w, Tick(ms)) == w.(now := w.now + ms)
  {}
}
