/**
Whole runs of one owner's keys: rotations, activations and retirements, each cut short after any
number of its writes or by a write that the UNIQUE state key refuses, in any order and at any time.
*/
module KeyRuns {
  import opened Optional
  import opened KeyRotation
  import opened KeySafety

  /** `writes`: how many of the handler's row writes are answered. */
  datatype Event =
    | Tick(ms: nat)
    | Rotate(certificate: Certificate, writes: nat)
    | Activate(force: bool, writes: nat)
    | Retire(writes: nat)

  /** Ids from `nextId` on are unused. */
  datatype World = World(rows: Table, now: int, nextId: nat)

  /** What does not change during a run: the root's certificate (for a tenant), and the policy. */
  datatype Policy = Policy(root: Option<Certificate>, minPublished: nat)

  function PlanOf(p: Policy, w: World, e: Event): seq<Write> {
    match e
    case Tick(_) => []
    case Rotate(certificate, _) => RotatePlan(w.rows, w.nextId, certificate, w.now)
    case Activate(force, _) => ActivatePlan(w.rows, p.root, w.nextId, w.now, force, p.minPublished)
    case Retire(_) => RetirePlan(w.rows)
  }

  function Step(p: Policy, w: World, e: Event): World {
    if e.Tick? then w.(now := w.now + e.ms)
    else World(Leaves(w.rows, PlanOf(p, w, e), e.writes), w.now, w.nextId + 1)
  }

  function Run(p: Policy, w: World, es: seq<Event>): World
    decreases |es|
  {
    if es == [] then w else Step(p, Run(p, w, es[..|es| - 1]), es[|es| - 1])
  }

  /** How many rows are left by an activation that gives a tenant its first key of its own. */
  function FirstOwnLeaves(p: Policy, w: World, e: Event): Option<int>
    requires e.Activate?
  {
    var next := First(Newest(w.rows, HANDLER_LIMIT), Next);
    if HadOwn(w.rows) || PlanOf(p, w, e) == [] || !Reaches(w.rows, p.root, w.nextId, w.now, e.writes) then None
    else Some(FirstLeaves(w.rows, next.value.id, p.root, w.nextId, w.now, e.writes))
  }

  /**
   * What may be asked. Once there has been an own key, `retire` writes only while a key is active, and
   * a rotation only where the own key is not the last row a signing reading shows. An activation that
   * gives the first own key leaves no more rows than such a reading shows.
   */
  predicate Allowed(p: Policy, w: World, e: Event) {
    match e
    case Tick(_) => true
    case Rotate(_, k) => HadOwn(w.rows) && k > 0 && !Has(w.rows, Next) ==> OwnLive(Newest(w.rows, LOAD_LIMIT - 1))
    case Activate(_, _) => var left := FirstOwnLeaves(p, w, e); left.Some? ==> left.value <= LOAD_LIMIT
    case Retire(k) => HadOwn(w.rows) && k > 0 && Has(w.rows, Previous) ==> Has(w.rows, Active)
  }

  ghost predicate Guarded(p: Policy, w: World, es: seq<Event>) {
    forall i :: 0 <= i < |es| ==> Allowed(p, Run(p, w, es[..i]), es[i])
  }

  ghost predicate Good(p: Policy, w: World, s: Slots) {
    && Legal(p.root.Some?, w.rows, s) && Near(w.rows, s)
    && (forall i :: 0 <= i < |w.rows| ==> w.rows[i].id < w.nextId)
    && (!OwnLast(w.rows, s) ==> LastSigned(w.rows, s, p.root) == p.root)
  }

  /** Where an owner starts: nothing yet (a tenant), or one active key of its own. */
  ghost predicate Initial(p: Policy, w: World) {
    || (w.rows == [] && p.root.Some?)
    || (|w.rows| == 1 && w.rows[0].state == Active && !w.rows[0].shared && w.rows[0].hasKey && w.rows[0].id < w.nextId)
  }

  lemma InitialIsGood(p: Policy, w: World) returns (s: Slots)
    requires Initial(p, w)
    ensures Good(p, w, s) && s.next < 0
  {
    s := Slots(-1, if w.rows == [] then -1 else 0, -1);
    HadOwnIs(true, w.rows, s);
  }

  // ---- Ids --------------------------------------------------------------------------------

  ghost predicate IdsBelow(t: Table, n: nat) {
    forall i :: 0 <= i < |t| ==> t[i].id < n
  }

  lemma {:induction false} DeleteIds(t: Table, id: nat, n: nat)
    requires IdsBelow(t, n)
    ensures IdsBelow(DeleteRow(t, id), n)
    decreases |t|
  {
    if t != [] { DeleteIds(t[1..], id, n); }
  }

  lemma {:induction false} ApplyIds(t: Table, ws: seq<Write>, n: nat)
    requires IdsBelow(t, n)
    requires forall i :: 0 <= i < |ws| && ws[i].Insert? ==> ws[i].row.id < n
    ensures IdsBelow(ApplyAll(t, ws), n)
    decreases |ws|
  {
    if ws != [] {
      if ws[0].Delete? { DeleteIds(t, ws[0].id, n); }
      ApplyIds(Apply(t, ws[0]), ws[1..], n);
    }
  }

  lemma PlanInserts(p: Policy, w: World, e: Event, i: nat)
    requires i < |PlanOf(p, w, e)| && PlanOf(p, w, e)[i].Insert?
    ensures PlanOf(p, w, e)[i].row.id == w.nextId
  {
    if e.Activate? {
      RoomInserts(w.rows, p.root, w.nextId, w.now);
      var room := MakeRoom(w.rows, p.root, w.nextId, w.now);
      assert i < |room| ==> PlanOf(p, w, e)[i] == room[i];
    }
  }

  lemma RoomInserts(t: Table, root: Option<Certificate>, id: nat, now: int)
    ensures var room := MakeRoom(t, root, id, now); forall i :: 0 <= i < |room| && room[i].Insert? ==> room[i].row.id == id
  {}

  lemma StepIds(p: Policy, w: World, e: Event)
    requires IdsBelow(w.rows, w.nextId)
    ensures IdsBelow(Step(p, w, e).rows, Step(p, w, e).nextId)
  {
    if !e.Tick? {
      var plan := PlanOf(p, w, e);
      forall i | 0 <= i < |plan| && plan[i].Insert? ensures plan[i].row.id == w.nextId {
        PlanInserts(p, w, e, i);
      }
      var n := Through(w.rows, plan, e.writes);
      var part := if n < |plan| then plan[..n] else plan;
      ApplyIds(w.rows, part, w.nextId + 1);
    }
  }

  lemma HasIs(t: Table, s: Slots)
    requires Fits(t, s)
    ensures Has(t, Active) <==> s.active >= 0
    ensures Has(t, Previous) <==> s.previous >= 0
  {
    if s.active >= 0 { assert t[s.active].state == Active; }
    if s.previous >= 0 { assert t[s.previous].state == Previous; }
  }

  // ---- The UNIQUE slots -------------------------------------------------------------------------

  /** Once the slot is freed, the next key may take it. */
  lemma SlotIsFree(t: Table, s: Slots, root: Option<Certificate>, id: nat, now: int)
    requires Legal(root.Some?, t, s) && Near(t, s) && s.next >= 0 && Fresh(t, id)
    ensures var room, plan := MakeRoom(t, root, id, now), Replacement(t, t[s.next].id, root, id, now);
      |room| < |plan| && Permitted(CutShort(t, plan, |room|), plan[|room|])
  {
    hide Leads, AllShared, Distinct, MakeRoom, Surplus, CutShort, ApplyAll;
    var room := MakeRoom(t, root, id, now);
    var rest := TakeOver(ApplyAll(t, room), t[s.next].id);
    var v := RoomKeeps(t, s, root, id, now, |room|);
    CutShortConcat(t, room, rest, |room|);
    CutAll(t, room, |room|);
    CutNow(ApplyAll(t, room), rest);
  }

  lemma CutNow(t: Table, ws: seq<Write>)
    ensures CutShort(t, ws, 0) == t
  {
    assert ws != [] ==> ws[..0] == [];
  }

  lemma ReplacementIsPermitted(t: Table, s: Slots, root: Option<Certificate>, id: nat, now: int, k: nat)
    requires Legal(root.Some?, t, s) && Near(t, s) && s.next >= 0 && Fresh(t, id)
    ensures var plan := Replacement(t, t[s.next].id, root, id, now); k < |plan| ==> Permitted(CutShort(t, plan, k), plan[k])
  {
    hide Leads, AllShared, MakeRoom, Surplus, Near;
    var room := MakeRoom(t, root, id, now);
    var rest := TakeOver(ApplyAll(t, room), t[s.next].id);
    if k == |room| {
      SlotIsFree(t, s, root, id, now);
    } else if k < |room| {
      MakeRoomIs(t, s, root, id, now);
      assert (room + rest)[k] == room[k];
    } else if k < |room| + |rest| {
      assert rest[k - |room|].Delete?;
    }
  }

  /**
   * Whatever was cut short before it, no write of a handler meets a taken `next` or `active` slot,
   * except that of a rotation which does not see the next key there is.
   */
  lemma PlansArePermitted(p: Policy, w: World, s: Slots, e: Event, k: nat)
    requires Good(p, w, s) && k < |PlanOf(p, w, e)|
    ensures Permitted(CutShort(w.rows, PlanOf(p, w, e), k), PlanOf(p, w, e)[k]) <==> !(e.Rotate? && s.next >= HANDLER_LIMIT)
  {
    hide Replacement, Surplus, MakeRoom;
    var t := w.rows;
    ReadsAll(t, s, HANDLER_LIMIT);
    if e.Rotate? {
      RotationIsPermitted(t, s, w.nextId, e.certificate, w.now, k);
    } else if e.Activate? {
      ReplacementIsPermitted(t, s, p.root, w.nextId, w.now, k);
    } else {
      RetirementIsPermitted(t, s, k);
    }
  }

  lemma RotationIsPermitted(t: Table, s: Slots, id: nat, certificate: Certificate, now: int, k: nat)
    requires Fits(t, s) && k < |RotatePlan(t, id, certificate, now)|
    ensures Permitted(CutShort(t, RotatePlan(t, id, certificate, now), k), RotatePlan(t, id, certificate, now)[k]) <==> s.next < HANDLER_LIMIT
  {
    ReadsAll(t, s, HANDLER_LIMIT);
    assert RotatePlan(t, id, certificate, now)[..0] == [];
    if s.next >= 0 { assert t[s.next].state == Next; }
  }

  lemma RetirementIsPermitted(t: Table, s: Slots, k: nat)
    requires Fits(t, s) && s.previous < HANDLER_LIMIT && k < |RetirePlan(t)|
    ensures Permitted(CutShort(t, RetirePlan(t), k), RetirePlan(t)[k])
  {
    RetirePlanIs(t, s);
  }

  /** So an activation or a retirement is stopped by nothing but a database that does not answer. */
  lemma NoneRefused(p: Policy, w: World, s: Slots, e: Event)
    requires Good(p, w, s) && (e.Activate? || e.Retire?)
    ensures Step(p, w, e).rows == CutShort(w.rows, PlanOf(p, w, e), e.writes)
    ensures Through(w.rows, PlanOf(p, w, e), e.writes) == Least(e.writes, |PlanOf(p, w, e)|)
  {
    var plan := PlanOf(p, w, e);
    forall k | 0 <= k < |plan| ensures Permitted(CutShort(w.rows, plan, k), plan[k]) { PlansArePermitted(p, w, s, e, k); }
    AllThrough(w.rows, plan, e.writes);
  }

  // ---- Every step keeps the table legal -----------------------------------------------------

  /** What an event does to the next, active and previous rows. */
  ghost predicate Effect(p: Policy, w: World, s: Slots, e: Event, u: Table, v: Slots)
    requires Fits(w.rows, s) && Fits(u, v)
  {
    match e
    case Tick(_) => u == w.rows && v == s
    case Rotate(c, k) =>
      if s.next >= 0 || k == 0 then u == w.rows && v == s
      else u == [Row(w.nextId, false, Next, c, true, w.now)] + w.rows && v == Slots(0, Below(s.active), Below(s.previous))
    case Activate(force, k) =>
      if s.next < 0 then u == w.rows && v == s
      else
        && (Waits(w.rows, s, u, v, p.root) || (MayActivate(w.rows[s.next], w.now, force, p.minPublished) && TookOver(w.rows, s, u, v, p.root)))
        && (PlanOf(p, w, e) != [] && k >= |PlanOf(p, w, e)| ==> TookOver(w.rows, s, u, v, p.root))
    case Retire(_) =>
      && RowAt(u, v.next) == RowAt(w.rows, s.next) && RowAt(u, v.active) == RowAt(w.rows, s.active)
      && LastSigned(u, v, p.root) == LastSigned(w.rows, s, p.root) && (OwnLast(u, v) <==> OwnLast(w.rows, s))
  }

  lemma ActivationAllowed(p: Policy, w: World, s: Slots, e: Event)
    requires Good(p, w, s) && e.Activate? && s.next >= 0
    ensures Allowed(p, w, e) <==> (
      || OwnLast(w.rows, s) || PlanOf(p, w, e) == [] || !Reaches(w.rows, p.root, w.nextId, w.now, e.writes)
      || FirstLeaves(w.rows, w.rows[s.next].id, p.root, w.nextId, w.now, e.writes) <= LOAD_LIMIT)
  {
    hide MakeRoom, Replacement, FirstLeaves, Reaches;
    ReadsAll(w.rows, s, HANDLER_LIMIT);
    HadOwnIs(p.root.Some?, w.rows, s);
  }

  lemma ReachesAll(t: Table, s: Slots, root: Option<Certificate>, id: nat, now: int, k: nat)
    requires Fits(t, s) && s.next >= 0 && k >= |Replacement(t, t[s.next].id, root, id, now)|
    ensures Reaches(t, root, id, now, k)
  {}

  lemma NothingToActivate(p: Policy, w: World, s: Slots, e: Event)
    requires Good(p, w, s) && e.Activate? && s.next < 0
    ensures PlanOf(p, w, e) == [] && Allowed(p, w, e)
  {
    ReadsAll(w.rows, s, HANDLER_LIMIT);
  }

  lemma ActivatePlanIs(p: Policy, w: World, s: Slots, e: Event)
    requires Good(p, w, s) && e.Activate? && s.next >= 0
    ensures PlanOf(p, w, e) != [] ==> PlanOf(p, w, e) == Replacement(w.rows, w.rows[s.next].id, p.root, w.nextId, w.now)
  {
    hide Replacement;
    ReadsAll(w.rows, s, HANDLER_LIMIT);
  }

  lemma ActivateStep(p: Policy, w: World, s: Slots, e: Event) returns (v: Slots)
    requires Good(p, w, s) && e.Activate?
    ensures Legal(p.root.Some?, Step(p, w, e).rows, v)
    ensures Effect(p, w, s, e, Step(p, w, e).rows, v)
    ensures Near(Step(p, w, e).rows, v) <==> Allowed(p, w, e)
    ensures !Near(Step(p, w, e).rows, v) ==> !OwnLast(w.rows, s) && OwnLast(Step(p, w, e).rows, v) && Main(v) == |Step(p, w, e).rows| - 1
  {
    hide MakeRoom, Replacement, FirstLeaves, Reaches, CutShort, Through, Leads, AllShared, Distinct, FirstOwnLeaves, ActivatePlan;
    NoneRefused(p, w, s, e);
    if s.next >= 0 {
      v := ActivateKeeps(w.rows, s, p.root, w.nextId, w.now, e.force, p.minPublished, e.writes);
      ActivationAllowed(p, w, s, e);
      ActivatePlanIs(p, w, s, e);
      if e.writes >= |Replacement(w.rows, w.rows[s.next].id, p.root, w.nextId, w.now)| { ReachesAll(w.rows, s, p.root, w.nextId, w.now, e.writes); }
    } else {
      NothingToActivate(p, w, s, e);
      CutNone(w.rows, e.writes);
      v := s;
    }
  }

  lemma RotateStep(p: Policy, w: World, s: Slots, e: Event) returns (v: Slots)
    requires Good(p, w, s) && e.Rotate?
    ensures Legal(p.root.Some?, Step(p, w, e).rows, v)
    ensures Effect(p, w, s, e, Step(p, w, e).rows, v)
    ensures Near(Step(p, w, e).rows, v) <==> Allowed(p, w, e)
    ensures !Near(Step(p, w, e).rows, v) ==> OwnLast(w.rows, s) && OwnLast(Step(p, w, e).rows, v) && Main(v) >= LOAD_LIMIT
  {
    HasIs(w.rows, s);
    HadOwnIs(p.root.Some?, w.rows, s);
    LiveIsMain(p.root.Some?, w.rows, s, LOAD_LIMIT - 1);
    v := RotateKeeps(p.root.Some?, w.rows, s, w.nextId, e.certificate, w.now, e.writes);
  }

  lemma RetireStep(p: Policy, w: World, s: Slots, e: Event) returns (v: Slots)
    requires Good(p, w, s) && e.Retire? && Allowed(p, w, e)
    ensures Legal(p.root.Some?, Step(p, w, e).rows, v) && Near(Step(p, w, e).rows, v)
    ensures Effect(p, w, s, e, Step(p, w, e).rows, v)
  {
    NoneRefused(p, w, s, e);
    HasIs(w.rows, s);
    HadOwnIs(p.root.Some?, w.rows, s);
    if s.active >= 0 || !OwnLast(w.rows, s) {
      v := RetireKeeps(p.root.Some?, w.rows, s, e.writes);
    } else {
      assert e.writes == 0;
      v := s;
    }
  }

  lemma StepLegal(p: Policy, w: World, s: Slots, e: Event) returns (v: Slots)
    requires Good(p, w, s) && Allowed(p, w, e)
    ensures Legal(p.root.Some?, Step(p, w, e).rows, v) && Near(Step(p, w, e).rows, v)
    ensures Effect(p, w, s, e, Step(p, w, e).rows, v)
  {
    match e {
      case Tick(_) => v := s;
      case Rotate(_, _) => v := RotateStep(p, w, s, e);
      case Activate(_, _) => v := ActivateStep(p, w, s, e);
      case Retire(_) => v := RetireStep(p, w, s, e);
    }
  }

  /** Once an owner has had a key of its own, it always has one that is active, or was last. */
  lemma StepKeeps(p: Policy, w: World, s: Slots, e: Event) returns (v: Slots)
    requires Good(p, w, s) && Allowed(p, w, e)
    ensures Good(p, Step(p, w, e), v) && Effect(p, w, s, e, Step(p, w, e).rows, v)
    ensures HadOwn(w.rows) ==> HadOwn(Step(p, w, e).rows)
  {
    var u := Step(p, w, e);
    v := StepLegal(p, w, s, e);
    StepIds(p, w, e);
    HadOwnIs(p.root.Some?, w.rows, s);
    HadOwnIs(p.root.Some?, u.rows, v);
    if HadOwn(w.rows) && e.Rotate? && u.rows != w.rows {
      HadOwnAbove(w.rows, u.rows[0]);
    }
  }

  lemma HadOwnAbove(t: Table, row: Row)
    ensures HadOwn(t) ==> HadOwn([row] + t)
  {
    if HadOwn(t) {
      var i :| 0 <= i < |t| && !t[i].shared && t[i].state != Next;
      assert ([row] + t)[i + 1] == t[i];
    }
  }

  // ---- Runs ---------------------------------------------------------------------------------

  lemma GuardedPrefix(p: Policy, w: World, es: seq<Event>)
    requires Guarded(p, w, es) && es != []
    ensures Guarded(p, w, es[..|es| - 1]) && Allowed(p, Run(p, w, es[..|es| - 1]), es[|es| - 1])
  {
    var front := es[..|es| - 1];
    forall i | 0 <= i < |front| ensures Allowed(p, Run(p, w, front[..i]), front[i]) {
      assert front[..i] == es[..i];
    }
  }

  lemma {:induction false} RunKeeps(p: Policy, w: World, s: Slots, es: seq<Event>) returns (v: Slots)
    requires Good(p, w, s) && Guarded(p, w, es)
    ensures Good(p, Run(p, w, es), v)
    ensures HadOwn(w.rows) ==> HadOwn(Run(p, w, es).rows)
    decreases |es|
  {
    if es == [] {
      v := s;
    } else {
      GuardedPrefix(p, w, es);
      v := RunKeeps(p, w, s, es[..|es| - 1]);
      v := StepKeeps(p, Run(p, w, es[..|es| - 1]), v, es[|es| - 1]);
    }
  }

  /**
   * Over every guarded run: an owner that has ever had an active key of its own keeps an own
   * active or previous row where signing looks for it, and is signed for with its own key or not at
   * all.
   */
  lemma NeverFallsBack(p: Policy, w: World, before: seq<Event>, after: seq<Event>)
    requires Initial(p, w) && Guarded(p, w, before + after)
    requires var t := Run(p, w, before).rows; Has(t, Active) || HadOwn(t)
    ensures var t := Run(p, w, before + after).rows;
      OwnLive(Newest(t, LOAD_LIMIT)) && !SigningOf(t, p.root).SharedKey?
  {
    var s := InitialIsGood(p, w);
    forall i | 0 <= i < |before| ensures Allowed(p, Run(p, w, before[..i]), before[i]) {
      assert (before + after)[..i] == before[..i];
    }
    s := RunKeeps(p, w, s, before);
    var mid := Run(p, w, before);
    HasIs(mid.rows, s);
    HadOwnIs(p.root.Some?, mid.rows, s);
    forall i | 0 <= i < |after| ensures Allowed(p, Run(p, mid, after[..i]), after[i]) {
      assert (before + after)[..|before| + i] == before + after[..i];
      RunConcat(p, w, before, after[..i]);
    }
    RunConcat(p, w, before, after);
    s := RunKeeps(p, mid, s, after);
    var t := Run(p, mid, after).rows;
    HadOwnIs(p.root.Some?, t, s);
    SigningIs(t, s, p.root);
    LiveIsMain(p.root.Some?, t, s, LOAD_LIMIT);
  }

  lemma {:induction false} RunConcat(p: Policy, w: World, a: seq<Event>, b: seq<Event>)
    ensures Run(p, w, a + b) == Run(p, Run(p, w, a), b)
    decreases |b|
  {
    if b == [] {
      assert a + b == a;
    } else {
      assert (a + b)[..|a + b| - 1] == a + b[..|b| - 1];
      RunConcat(p, w, a, b[..|b| - 1]);
    }
  }

  // ---- Certificates stay published ------------------------------------------------------------

  lemma WaitsOn(t: Table, s: Slots, u: Table, v: Slots, x: Table, y: Slots, root: Option<Certificate>)
    requires Fits(t, s) && Fits(u, v) && Fits(x, y) && Waits(t, s, u, v, root)
    ensures Waits(u, v, x, y, root) ==> Waits(t, s, x, y, root)
    ensures TookOver(u, v, x, y, root) ==> TookOver(t, s, x, y, root)
  {}

  /**
   * While a next key waits, however many activations are cut short and whatever else is tried: either
   * it still waits at the end and nothing has changed about who signed last, or it took over at event
   * `n`, and the certificate that signed before is then the previous one.
   */
  lemma {:induction false} TakesOverOrWaits(p: Policy, w: World, s: Slots, es: seq<Event>) returns (n: nat, v: Slots)
    requires Good(p, w, s) && s.next >= 0 && Guarded(p, w, es)
    ensures n <= |es|
    ensures Good(p, Run(p, w, es[..n]), v)
    ensures Waits(w.rows, s, Run(p, w, es[..n]).rows, v, p.root) || TookOver(w.rows, s, Run(p, w, es[..n]).rows, v, p.root)
    ensures Waits(w.rows, s, Run(p, w, es[..n]).rows, v, p.root) ==> n == |es|
    decreases |es|
  {
    if es == [] {
      n, v := 0, s;
    } else {
      var front, e := es[..|es| - 1], es[|es| - 1];
      GuardedPrefix(p, w, es);
      n, v := TakesOverOrWaits(p, w, s, front);
      assert front[..n] == es[..n];
      if Waits(w.rows, s, Run(p, w, front[..n]).rows, v, p.root) {
        assert front[..n] == front && es[..|es|] == es;
        v := WaitsOneMore(p, w, s, Run(p, w, front), v, e);
        n := |es|;
      }
    }
  }

  lemma WaitsOneMore(p: Policy, w: World, s: Slots, u: World, v: Slots, e: Event) returns (y: Slots)
    requires Good(p, w, s) && Good(p, u, v) && s.next >= 0 && Allowed(p, u, e) && Waits(w.rows, s, u.rows, v, p.root)
    ensures var x := Step(p, u, e);
      Good(p, x, y) && (Waits(w.rows, s, x.rows, y, p.root) || TookOver(w.rows, s, x.rows, y, p.root))
  {
    y := StepKeeps(p, u, v, e);
    WaitsOn(w.rows, s, u.rows, v, Step(p, u, e).rows, y, p.root);
  }

  lemma RunSnoc(p: Policy, w: World, es: seq<Event>, e: Event)
    ensures Run(p, w, es + [e]) == Step(p, Run(p, w, es), e)
    ensures (es + [e])[..|es| + 1] == es + [e]
  {
    assert (es + [e])[..|es|] == es;
  }

  /** The certificate an owner signs with. */
  function SignedWith(g: Signing): Certificate
    requires g != Refused
  {
    if g.OwnKey? then g.row.certificate else g.certificate
  }

  lemma TookOverPublishes(p: Policy, w: World, s: Slots, u: World, v: Slots)
    requires Good(p, w, s) && Good(p, u, v) && TookOver(w.rows, s, u.rows, v, p.root)
    requires SigningOf(w.rows, p.root) != Refused
    ensures SigningOf(u.rows, p.root).OwnKey? && SigningOf(u.rows, p.root).row == w.rows[s.next].(state := Active)
    ensures SignedWith(SigningOf(w.rows, p.root)) in SigningOf(u.rows, p.root).published
  {
    HadOwnIs(p.root.Some?, w.rows, s);
    SigningIs(w.rows, s, p.root);
    SigningIs(u.rows, v, p.root);
    PublishedIs(u.rows, v, p.root);
  }

  lemma FirstIs(tenant: bool, t: Table, s: Slots)
    requires Legal(tenant, t, s)
    ensures First(t, Next) == RowAt(t, s.next)
  {
    if s.next >= 0 { FirstAt(t, Next, s.next); }
  }

  lemma WaitsNext(t: Table, s: Slots, u: Table, v: Slots, root: Option<Certificate>)
    requires Fits(t, s) && Fits(u, v) && Waits(t, s, u, v, root)
    ensures s.next >= 0 && v.next >= 0
  {}

  /** The activation that completes while the next key still waits. */
  lemma LastTakesOver(p: Policy, w: World, s: Slots, u: World, v: Slots, last: Event)
    requires Good(p, w, s) && Good(p, u, v) && s.next >= 0 && Waits(w.rows, s, u.rows, v, p.root)
    requires SigningOf(w.rows, p.root) != Refused
    requires last.Activate? && Allowed(p, u, last) && PlanOf(p, u, last) != [] && last.writes >= |PlanOf(p, u, last)|
    ensures var now := SigningOf(Step(p, u, last).rows, p.root);
      && now.OwnKey? && now.row == w.rows[s.next].(state := Active)
      && SignedWith(SigningOf(w.rows, p.root)) in now.published
  {
    hide PlanOf, Leads, AllShared, Distinct, LastSigned, SigningOf, Allowed, Step, Near;
    var y := StepKeeps(p, u, v, last);
    WaitsNext(w.rows, s, u.rows, v, p.root);
    WaitsOn(w.rows, s, u.rows, v, Step(p, u, last).rows, y, p.root);
    TookOverPublishes(p, w, s, Step(p, u, last), y);
  }

  /**
   * Continuity: whatever signs at first, after any number of cut-short activations and then one
   * that is not refused and completes, with the root key unchanged, the new key has taken over (at
   * event `n`) with the old certificate still published.
   */
  lemma StillPublished(p: Policy, w: World, s: Slots, es: seq<Event>, last: Event) returns (n: nat)
    requires Good(p, w, s) && s.next >= 0 && Guarded(p, w, es) && Allowed(p, Run(p, w, es), last)
    requires SigningOf(w.rows, p.root) != Refused
    requires last.Activate? && last.writes >= |PlanOf(p, Run(p, w, es), last)|
    requires First(Run(p, w, es).rows, Next) == Some(w.rows[s.next]) ==> PlanOf(p, Run(p, w, es), last) != []
    ensures n <= |es| + 1
    ensures var now := SigningOf(Run(p, w, (es + [last])[..n]).rows, p.root);
      && now.OwnKey? && now.row == w.rows[s.next].(state := Active)
      && SignedWith(SigningOf(w.rows, p.root)) in now.published
  {
    hide SigningOf, PlanOf, Step, Allowed, Leads, AllShared, Distinct, LastSigned;
    var v;
    n, v := TakesOverOrWaits(p, w, s, es);
    var u := Run(p, w, es[..n]);
    if TookOver(w.rows, s, u.rows, v, p.root) {
      assert (es + [last])[..n] == es[..n];
      TookOverPublishes(p, w, s, u, v);
    } else {
      assert es[..n] == es;
      WaitingIsNext(p, w, s, u, v);
      LastTakesOver(p, w, s, u, v, last);
      RunSnoc(p, w, es, last);
      n := |es| + 1;
    }
  }

  lemma WaitingIsNext(p: Policy, w: World, s: Slots, u: World, v: Slots)
    requires Good(p, w, s) && Good(p, u, v) && s.next >= 0 && Waits(w.rows, s, u.rows, v, p.root)
    ensures First(u.rows, Next) == Some(w.rows[s.next])
  {
    FirstIs(p.root.Some?, u.rows, v);
  }

  /** `StillPublished`, from wherever a guarded run from the start has got to. */
  lemma ContinuityOverRuns(p: Policy, start: World, before: seq<Event>, es: seq<Event>, last: Event) returns (n: nat)
    requires Initial(p, start) && Guarded(p, start, before)
    requires var w := Run(p, start, before);
      && First(w.rows, Next).Some? && SigningOf(w.rows, p.root) != Refused
      && Guarded(p, w, es) && Allowed(p, Run(p, w, es), last)
      && last.Activate? && last.writes >= |PlanOf(p, Run(p, w, es), last)|
      && (First(Run(p, w, es).rows, Next) == First(w.rows, Next) ==> PlanOf(p, Run(p, w, es), last) != [])
    ensures n <= |es| + 1
    ensures var w := Run(p, start, before);
      var now := SigningOf(Run(p, w, (es + [last])[..n]).rows, p.root);
      && now.OwnKey? && now.row == First(w.rows, Next).value.(state := Active)
      && SignedWith(SigningOf(w.rows, p.root)) in now.published
  {
    var s := InitialIsGood(p, start);
    s := RunKeeps(p, start, s, before);
    var w := Run(p, start, before);
    FirstIs(p.root.Some?, w.rows, s);
    n := StillPublished(p, w, s, es, last);
  }

  // ---- Published before signing ---------------------------------------------------------------

  /** From event `from` to event `to`, `row` is the owner's next key. */
  ghost predicate NextThroughout(p: Policy, w: World, es: seq<Event>, row: Row, from: nat, to: nat)
    requires to <= |es|
  {
    forall k :: from <= k <= to ==> First(Run(p, w, es[..k]).rows, Next) == Some(row)
  }

  lemma NextStep(p: Policy, w: World, s: Slots, e: Event, row: Row)
    requires Good(p, w, s) && Allowed(p, w, e) && First(Step(p, w, e).rows, Next) == Some(row)
    ensures First(w.rows, Next) == Some(row) || row.createdAt == Step(p, w, e).now
  {
    var v := StepKeeps(p, w, s, e);
    FirstIs(p.root.Some?, w.rows, s);
    FirstIs(p.root.Some?, Step(p, w, e).rows, v);
    if e.Rotate? && Step(p, w, e).rows != w.rows {
      assert Step(p, w, e).rows[0].state == Next;
    }
  }

  lemma NextContinues(p: Policy, w: World, es: seq<Event>, row: Row, from: nat)
    requires es != [] && NextThroughout(p, w, es[..|es| - 1], row, from, |es| - 1)
    requires First(Run(p, w, es).rows, Next) == Some(row)
    ensures NextThroughout(p, w, es, row, from, |es|)
  {
    forall k | from <= k <= |es| ensures First(Run(p, w, es[..k]).rows, Next) == Some(row) {
      if k == |es| {
        assert es[..k] == es;
      } else {
        assert es[..|es| - 1][..k] == es[..k];
      }
    }
  }

  /** A next key was the next key before the last event too, or was written in it. */
  lemma NextLast(p: Policy, w: World, s: Slots, es: seq<Event>, row: Row)
    requires Good(p, w, s) && Guarded(p, w, es) && es != [] && First(Run(p, w, es).rows, Next) == Some(row)
    ensures Guarded(p, w, es[..|es| - 1])
    ensures First(Run(p, w, es[..|es| - 1]).rows, Next) == Some(row) || row.createdAt == Run(p, w, es).now
  {
    GuardedPrefix(p, w, es);
    var v := RunKeeps(p, w, s, es[..|es| - 1]);
    NextStep(p, Run(p, w, es[..|es| - 1]), v, es[|es| - 1], row);
  }

  lemma NoneAtFirst(p: Policy, w: World, s: Slots)
    requires Good(p, w, s) && s.next < 0
    ensures First(w.rows, Next).None?
  {
    FirstIs(p.root.Some?, w.rows, s);
  }

  /** A next key has been the next key ever since it was written, which was at its `createdAt`. */
  lemma {:induction false} NextSince(p: Policy, w: World, s: Slots, es: seq<Event>, row: Row) returns (from: nat)
    requires Good(p, w, s) && s.next < 0 && Guarded(p, w, es)
    requires First(Run(p, w, es).rows, Next) == Some(row)
    ensures from <= |es| && Run(p, w, es[..from]).now == row.createdAt
    ensures NextThroughout(p, w, es, row, from, |es|)
    decreases |es|
  {
    NoneAtFirst(p, w, s);
    assert es != [];
    NextLast(p, w, s, es, row);
    assert es[..|es|] == es;
    if First(Run(p, w, es[..|es| - 1]).rows, Next) == Some(row) {
      from := NextSince(p, w, s, es[..|es| - 1], row);
      NextContinues(p, w, es, row, from);
      assert es[..|es| - 1][..from] == es[..from];
    } else {
      from := |es|;
    }
  }

  /** Whether metadata, made from `LOAD_LIMIT` rows, shows the next key. */
  ghost predicate Shows(w: World, row: Row) { First(Newest(w.rows, LOAD_LIMIT), Next) == Some(row) }

  /** It does, except to a tenant with no key of its own yet and more rows than that. */
  lemma NextIsShown(p: Policy, w: World, s: Slots, row: Row)
    requires Good(p, w, s) && First(w.rows, Next) == Some(row)
    ensures Shows(w, row) <==> HadOwn(w.rows) || |w.rows| <= LOAD_LIMIT
  {
    FirstIs(p.root.Some?, w.rows, s);
    ReadsAll(w.rows, s, LOAD_LIMIT);
    HadOwnIs(p.root.Some?, w.rows, s);
  }

  lemma ShownThroughout(p: Policy, w: World, s: Slots, es: seq<Event>, row: Row, from: nat)
    requires Good(p, w, s) && Guarded(p, w, es) && NextThroughout(p, w, es, row, from, |es|)
    ensures forall k :: from <= k <= |es| ==> (Shows(Run(p, w, es[..k]), row) <==> HadOwn(Run(p, w, es[..k]).rows) || |Run(p, w, es[..k]).rows| <= LOAD_LIMIT)
  {
    forall k | from <= k <= |es|
      ensures Shows(Run(p, w, es[..k]), row) <==> HadOwn(Run(p, w, es[..k]).rows) || |Run(p, w, es[..k]).rows| <= LOAD_LIMIT
    {
      GuardedUpTo(p, w, es, k);
      var v := RunKeeps(p, w, s, es[..k]);
      NextIsShown(p, Run(p, w, es[..k]), v, row);
    }
  }

  lemma GuardedUpTo(p: Policy, w: World, es: seq<Event>, n: nat)
    requires n <= |es| && Guarded(p, w, es)
    ensures Guarded(p, w, es[..n])
  {
    forall i | 0 <= i < n ensures Allowed(p, Run(p, w, es[..n][..i]), es[..n][i]) { assert es[..n][..i] == es[..i]; }
  }

  /**
   * A key starts to sign only after being the next key, without a gap, for the minimum time; or when
   * forced. (An owner's first key starts active and never takes over.) Metadata shows it all that
   * time, except while a tenant with no key of its own yet has more rows than are read.
   */
  lemma PublishedBeforeSigning(p: Policy, w: World, es: seq<Event>, e: Event, row: Row) returns (from: nat)
    requires Initial(p, w) && Guarded(p, w, es + [e])
    requires var was, now := Run(p, w, es), Run(p, w, es + [e]);
      First(now.rows, Active) == Some(row) && First(was.rows, Active) != Some(row)
    ensures from <= |es| && Run(p, w, es[..from]).now == row.createdAt
    ensures NextThroughout(p, w, es, row.(state := Next), from, |es|)
    ensures e.Activate? && (e.force || Run(p, w, es).now >= row.createdAt + p.minPublished)
    ensures forall k :: from <= k <= |es| ==>
      (Shows(Run(p, w, es[..k]), row.(state := Next)) <==> HadOwn(Run(p, w, es[..k]).rows) || |Run(p, w, es[..k]).rows| <= LOAD_LIMIT)
  {
    var s := InitialIsGood(p, w);
    assert (es + [e])[..|es|] == es;
    GuardedPrefix(p, w, es + [e]);
    var u := Run(p, w, es);
    var v := RunKeeps(p, w, s, es);
    TakesOverByActivation(p, u, v, e, row);
    from := NextSince(p, w, s, es, row.(state := Next));
    ShownThroughout(p, w, s, es, row.(state := Next), from);
  }

  lemma TakesOverByActivation(p: Policy, u: World, v: Slots, e: Event, row: Row)
    requires Good(p, u, v) && Allowed(p, u, e)
    requires First(Step(p, u, e).rows, Active) == Some(row) && First(u.rows, Active) != Some(row)
    ensures e.Activate? && (e.force || u.now >= row.createdAt + p.minPublished)
    ensures First(u.rows, Next) == Some(row.(state := Next))
  {
    hide Leads, AllShared, Distinct, Allowed, Step, SigningOf;
    var y := StepKeeps(p, u, v, e);
    ActiveIs(p.root.Some?, u.rows, v);
    ActiveIs(p.root.Some?, Step(p, u, e).rows, y);
    FirstIs(p.root.Some?, u.rows, v);
    RotationKeepsActive(p, u, v, e, y);
  }

  lemma ActiveIs(tenant: bool, t: Table, s: Slots)
    requires Legal(tenant, t, s)
    ensures First(t, Active) == RowAt(t, s.active)
  {
    if s.active >= 0 { FirstAt(t, Active, s.active); }
  }

  lemma RotationKeepsActive(p: Policy, u: World, v: Slots, e: Event, y: Slots)
    requires Fits(u.rows, v) && Fits(Step(p, u, e).rows, y) && Effect(p, u, v, e, Step(p, u, e).rows, y)
    ensures e.Rotate? ==> First(Step(p, u, e).rows, Active) == First(u.rows, Active)
  {
    if e.Rotate? && Step(p, u, e).rows != u.rows { PushedActive(u.rows, Step(p, u, e).rows[0]); }
  }

  lemma PushedActive(t: Table, row: Row)
    requires row.state == Next
    ensures First([row] + t, Active) == First(t, Active)
  {
    assert ([row] + t)[1..] == t;
  }
}
