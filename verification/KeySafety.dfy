/**
What every step of a key's life keeps, however the handlers of `KeyRotation` are cut short, as long
as `retire` takes no key of the owner's own from under an activation that is cut short.
*/
module KeySafety {
  import opened Optional
  import opened KeyRotation

  // ---- The shape of a key table ----------------------------------------------------------

  /** Where the next, active and previous rows are (-1 for none); every other row is retired. */
  datatype Slots = Slots(next: int, active: int, previous: int)

  ghost predicate Fits(t: Table, s: Slots) {
    && -1 <= s.next < |t| && -1 <= s.active < |t| && -1 <= s.previous < |t|
    && (forall i :: 0 <= i < |t| ==>
          t[i].state == if i == s.next then Next else if i == s.active then Active else if i == s.previous then Previous else Retired)
    && (s.active >= 0 ==> s.active != s.next && s.active != s.previous)
    && (s.previous >= 0 ==> s.previous != s.next)
  }

  ghost predicate Distinct(t: Table) {
    forall i, j :: 0 <= i < j < |t| ==> t[i].id != t[j].id
  }

  predicate Own(t: Table, i: int) {
    0 <= i < |t| && !t[i].shared
  }

  /** Only the next key and shared rows are newer than row `i`. */
  ghost predicate Leads(t: Table, i: int, next: int) {
    forall j :: 0 <= j < i && j < |t| && j != next ==> t[j].shared
  }

  /** The active key, or the one an activation in progress is replacing, is the owner's own. */
  predicate OwnLast(t: Table, s: Slots) {
    s.active >= 0 || Own(t, s.previous)
  }

  /** Where that row is. */
  function Main(s: Slots): int { if s.active >= 0 then s.active else s.previous }

  ghost predicate AllShared(t: Table, next: int) {
    forall i :: 0 <= i < |t| && i != next ==> t[i].shared
  }

  /**
   * `tenant`: there is a shared key that an owner without a key of its own signs with; the root
   * has none. Until a tenant has a key of its own, its next key is under rows of the shared one.
   */
  ghost predicate Legal(tenant: bool, t: Table, s: Slots) {
    && Fits(t, s) && Distinct(t)
    && (s.next >= 0 ==> Own(t, s.next) && t[s.next].hasKey)
    && (if OwnLast(t, s) then
          && Own(t, Main(s)) && t[Main(s)].hasKey && Leads(t, Main(s), s.next)
          && s.next <= 0 && s.next < Main(s) && (s.active < 0 ==> s.next == 0)
          && (Own(t, s.previous) ==> t[s.previous].hasKey)
        else
          && tenant && AllShared(t, s.next) && s.previous <= 0
          && if s.next < 0 then t == [] else s.next == |t| - 1)
  }

  /** The rows of an owner's own keys are among those a reading of `LOAD_LIMIT` rows shows. */
  predicate Near(t: Table, s: Slots) {
    OwnLast(t, s) ==> Main(s) < LOAD_LIMIT && s.previous <= LOAD_LIMIT + s.next
  }

  function RowAt(t: Table, i: int): Option<Row>
    requires i < |t|
  {
    if i < 0 then None else Some(t[i])
  }

  /** The same unretired rows, wherever they are now. */
  ghost predicate SameRows(t: Table, s: Slots, u: Table, v: Slots)
    requires Fits(t, s) && Fits(u, v)
  {
    RowAt(u, v.next) == RowAt(t, s.next) && RowAt(u, v.active) == RowAt(t, s.active) && RowAt(u, v.previous) == RowAt(t, s.previous)
  }

  /** Has the owner ever had an active key of its own, as far as its rows tell? */
  predicate HadOwn(t: Table) {
    exists i :: 0 <= i < |t| && !t[i].shared && t[i].state != Next
  }

  // ---- One write at a time ----------------------------------------------------------------

  lemma MoveAt(t: Table, i: nat, to: KeyState, erase: bool)
    requires Distinct(t) && i < |t|
    ensures MoveRow(t, t[i].id, to, erase) == t[i := t[i].(state := to, hasKey := t[i].hasKey && !erase)]
  {}

  function Below(i: int): int { if i < 0 then -1 else i + 1 }

  lemma PushedFits(t: Table, u: Table, s: Slots)
    requires Fits(t, s) && Distinct(t) && s.next < 0
    requires |u| == |t| + 1 && forall i :: 1 <= i < |u| ==> u[i] == t[i - 1]
    requires u[0].state == Next && forall i :: 0 <= i < |t| ==> t[i].id != u[0].id
    ensures Fits(u, Slots(0, Below(s.active), Below(s.previous))) && Distinct(u)
  {
    forall i, j | 0 <= i < j < |u| ensures u[i].id != u[j].id {
      if i > 0 {
        assert t[i - 1].id != t[j - 1].id;
      }
    }
  }

  lemma InsertNextKeeps(tenant: bool, t: Table, s: Slots, row: Row)
    requires Legal(tenant, t, s) && s.next < 0
    requires row.state == Next && !row.shared && row.hasKey
    requires forall i :: 0 <= i < |t| ==> t[i].id != row.id
    ensures Legal(tenant, [row] + t, Slots(0, Below(s.active), Below(s.previous)))
    ensures HadOwn(t) ==> HadOwn([row] + t)
    ensures Near(t, s) ==> (Near([row] + t, Slots(0, Below(s.active), Below(s.previous))) <==> OwnLast(t, s) ==> Main(s) < LOAD_LIMIT - 1)
  {
    var u := [row] + t;
    var v := Slots(0, Below(s.active), Below(s.previous));
    PushedFits(t, u, s);
    assert s.previous >= 0 ==> u[v.previous] == t[s.previous];
    assert s.active >= 0 ==> u[v.active] == t[s.active];
    assert Legal(tenant, u, v);
    if HadOwn(t) {
      var i :| 0 <= i < |t| && !t[i].shared && t[i].state != Next;
      assert u[i + 1] == t[i];
    }
  }

  /** A previous row is retired while a key is active. */
  lemma RetirePreviousKeeps(tenant: bool, t: Table, s: Slots)
    requires Legal(tenant, t, s) && s.active >= 0 && s.previous >= 0
    ensures Legal(tenant, MoveRow(t, t[s.previous].id, Retired, true), s.(previous := -1))
    ensures HadOwn(MoveRow(t, t[s.previous].id, Retired, true))
    ensures Near(t, s) ==> Near(MoveRow(t, t[s.previous].id, Retired, true), s.(previous := -1))
  {
    var u := MoveRow(t, t[s.previous].id, Retired, true);
    MoveAt(t, s.previous, Retired, true);
    assert u[s.active].state == Active;
  }

  /** The row that records the shared key is retired inside a tenant's first activation. */
  lemma RetireSharedKeeps(tenant: bool, t: Table, s: Slots)
    requires Legal(tenant, t, s) && !OwnLast(t, s) && s.previous >= 0
    ensures Legal(tenant, MoveRow(t, t[s.previous].id, Retired, true), s.(previous := -1))
    ensures !OwnLast(MoveRow(t, t[s.previous].id, Retired, true), s.(previous := -1))
  {
    MoveAt(t, s.previous, Retired, true);
  }

  lemma ActiveToPreviousKeeps(tenant: bool, t: Table, s: Slots)
    requires Legal(tenant, t, s) && s.next >= 0 && s.active >= 0 && s.previous < 0
    ensures Legal(tenant, MoveRow(t, t[s.active].id, Previous, false), Slots(s.next, -1, s.active))
    ensures HadOwn(MoveRow(t, t[s.active].id, Previous, false))
    ensures Near(t, s) ==> Near(MoveRow(t, t[s.active].id, Previous, false), Slots(s.next, -1, s.active))
  {
    var u := MoveRow(t, t[s.active].id, Previous, false);
    MoveAt(t, s.active, Previous, false);
    assert u[s.active].state == Previous && !u[s.active].shared;
  }

  lemma InsertSharedKeeps(t: Table, s: Slots, row: Row)
    requires Legal(true, t, s) && s.next >= 0 && s.active < 0 && s.previous < 0
    requires row.shared && row.state == Previous
    requires forall i :: 0 <= i < |t| ==> t[i].id != row.id
    ensures Legal(true, [row] + t, Slots(s.next + 1, -1, 0))
    ensures !OwnLast([row] + t, Slots(s.next + 1, -1, 0))
  {
    var u := [row] + t;
    assert u[s.next + 1] == t[s.next];
    forall i, j | 0 <= i < j < |u| ensures u[i].id != u[j].id {
      if i > 0 { assert t[i - 1].id != t[j - 1].id; }
    }
  }

  /** The next key takes over: the slot of the active key is free, and what signed is previous. */
  lemma TakeOverKeeps(tenant: bool, t: Table, s: Slots)
    requires Legal(tenant, t, s) && s.next >= 0 && s.active < 0 && s.previous >= 0
    ensures Legal(tenant, MoveRow(t, t[s.next].id, Active, false), Slots(-1, s.next, s.previous))
    ensures HadOwn(MoveRow(t, t[s.next].id, Active, false))
    ensures Near(t, s) && OwnLast(t, s) ==> Near(MoveRow(t, t[s.next].id, Active, false), Slots(-1, s.next, s.previous))
  {
    var u := MoveRow(t, t[s.next].id, Active, false);
    MoveAt(t, s.next, Active, false);
    assert u[s.next].state == Active && !u[s.next].shared;
  }

  /** `u` is `t` without row `gone`. */
  ghost predicate Gap(t: Table, u: Table, gone: nat) {
    gone < |t| && |u| == |t| - 1 && forall i :: 0 <= i < |u| ==> u[i] == t[if i < gone then i else i + 1]
  }

  lemma {:induction false} DeleteAt(t: Table, i: nat)
    requires Distinct(t) && i < |t|
    ensures Gap(t, DeleteRow(t, t[i].id), i)
    decreases |t|
  {
    if i == 0 {
      DeleteAbsent(t[1..], t[0].id);
    } else {
      DeleteAt(t[1..], i - 1);
    }
  }

  lemma DeleteAbsent(t: Table, id: nat)
    requires forall i :: 0 <= i < |t| ==> t[i].id != id
    ensures DeleteRow(t, id) == t
  {}

  function Shift(i: int, gone: nat): int { if i > gone then i - 1 else i }

  lemma GapFits(t: Table, u: Table, s: Slots, gone: nat)
    requires Fits(t, s) && Distinct(t) && Gap(t, u, gone) && t[gone].state == Retired
    ensures Fits(u, Slots(Shift(s.next, gone), Shift(s.active, gone), Shift(s.previous, gone))) && Distinct(u)
  {
    forall i, j | 0 <= i < j < |u| ensures u[i].id != u[j].id {
      assert t[if i < gone then i else i + 1].id != t[if j < gone then j else j + 1].id;
    }
  }

  /** What a row's deletion leaves of rows that were not deleted. */
  ghost predicate Closes(t: Table, s: Slots, u: Table, v: Slots)
    requires Fits(t, s) && Fits(u, v)
  {
    && SameRows(t, s, u, v)
    && (Near(t, s) ==> Near(u, v))
    && (s.active >= 0 && s.active == |t| - 1 ==> v.active == |u| - 1)
  }

  lemma GapLegal(tenant: bool, t: Table, u: Table, s: Slots, gone: nat)
    requires Legal(tenant, t, s) && Gap(t, u, gone) && t[gone].state == Retired
    ensures Legal(tenant, u, Slots(Shift(s.next, gone), Shift(s.active, gone), Shift(s.previous, gone)))
    ensures Closes(t, s, u, Slots(Shift(s.next, gone), Shift(s.active, gone), Shift(s.previous, gone)))
  {
    var v := Slots(Shift(s.next, gone), Shift(s.active, gone), Shift(s.previous, gone));
    GapFits(t, u, s, gone);
    assert gone != s.next && gone != s.active && gone != s.previous;
    assert s.active >= 0 ==> u[v.active] == t[s.active];
    assert s.next >= 0 ==> u[v.next] == t[s.next];
    assert s.previous >= 0 ==> u[v.previous] == t[s.previous];
    if OwnLast(t, s) {
      assert Leads(u, Main(v), v.next) by { assert Leads(t, Main(s), s.next); }
    } else {
      assert AllShared(u, v.next) by { assert AllShared(t, s.next); }
    }
  }

  lemma DeleteRetiredKeeps(tenant: bool, t: Table, s: Slots, i: nat)
    requires Legal(tenant, t, s) && i < |t| && t[i].state == Retired
    ensures Legal(tenant, DeleteRow(t, t[i].id), Slots(Shift(s.next, i), Shift(s.active, i), Shift(s.previous, i)))
    ensures Closes(t, s, DeleteRow(t, t[i].id), Slots(Shift(s.next, i), Shift(s.active, i), Shift(s.previous, i)))
    ensures Gap(t, DeleteRow(t, t[i].id), i)
  {
    DeleteAt(t, i);
    GapLegal(tenant, t, DeleteRow(t, t[i].id), s, i);
  }

  // ---- What a handler reads ---------------------------------------------------------------

  lemma {:induction false} FirstAt(t: Table, s: KeyState, i: nat)
    requires i < |t| && t[i].state == s && forall j :: 0 <= j < i ==> t[j].state != s
    ensures First(t, s) == Some(t[i])
    decreases |t|
  {
    if i > 0 { FirstAt(t[1..], s, i - 1); }
  }

  lemma {:induction false} HavingOne(t: Table, s: KeyState, i: nat)
    requires i < |t| && t[i].state == s && forall j :: 0 <= j < |t| && j != i ==> t[j].state != s
    ensures Having(t, s) == [t[i]]
    decreases |t|
  {
    if i > 0 {
      HavingOne(t[1..], s, i - 1);
    }
  }

  function Shown(t: Table, i: int, limit: nat): Option<Row>
    requires i < |t|
  {
    if 0 <= i < limit then Some(t[i]) else None
  }

  lemma ReadsState(t: Table, st: KeyState, i: int, limit: nat)
    requires -1 <= i < |t| && forall j :: 0 <= j < |t| ==> (t[j].state == st <==> j == i)
    ensures First(Newest(t, limit), st) == Shown(t, i, limit)
    ensures Having(Newest(t, limit), st) == if 0 <= i < limit then [t[i]] else []
  {
    var u := Newest(t, limit);
    assert forall j :: 0 <= j < |u| ==> u[j] == t[j];
    if 0 <= i < limit {
      FirstAt(u, st, i);
      HavingOne(u, st, i);
    }
  }

  /** A limited reading shows the next, active and previous rows that are among the newest so many. */
  lemma ReadsAll(t: Table, s: Slots, limit: nat)
    requires Fits(t, s)
    ensures First(Newest(t, limit), Next) == Shown(t, s.next, limit)
    ensures First(Newest(t, limit), Active) == Shown(t, s.active, limit)
    ensures Having(Newest(t, limit), Previous) == if 0 <= s.previous < limit then [t[s.previous]] else []
  {
    ReadsState(t, Next, s.next, limit);
    ReadsState(t, Active, s.active, limit);
    ReadsState(t, Previous, s.previous, limit);
  }

  // ---- A handler cut short anywhere -------------------------------------------------------

  /** The certificate the owner signs with, or signed with when an activation was cut short. */
  ghost function LastSigned(t: Table, s: Slots, root: Option<Certificate>): Option<Certificate>
    requires Fits(t, s)
  {
    if s.active >= 0 then Some(t[s.active].certificate)
    else if s.previous >= 0 then Some(t[s.previous].certificate)
    else root
  }

  /** Different rows of `t`, all of them retired. */
  ghost predicate AreRetired(t: Table, rows: seq<Row>) {
    Distinct(rows) && forall j :: 0 <= j < |rows| ==> rows[j] in t && rows[j].state == Retired
  }

  lemma DeleteKeeps(tenant: bool, t: Table, s: Slots, rows: seq<Row>) returns (v: Slots)
    requires Legal(tenant, t, s) && AreRetired(t, rows) && rows != []
    ensures var u := DeleteRow(t, rows[0].id);
      Legal(tenant, u, v) && Closes(t, s, u, v) && AreRetired(u, rows[1..]) && |u| == |t| - 1
  {
    var u := DeleteRow(t, rows[0].id);
    var i :| 0 <= i < |t| && t[i] == rows[0];
    DeleteRetiredKeeps(tenant, t, s, i);
    v := Slots(Shift(s.next, i), Shift(s.active, i), Shift(s.previous, i));
    forall j | 0 <= j < |rows[1..]| ensures rows[1..][j] in u {
      var n :| 0 <= n < |t| && t[n] == rows[j + 1];
      assert rows[0].id != rows[j + 1].id;
      assert u[if n < i then n else n - 1] == t[n];
    }
  }

  lemma ClosesOn(t: Table, s: Slots, u: Table, v: Slots, x: Table, y: Slots)
    requires Fits(t, s) && Fits(u, v) && Fits(x, y) && Closes(t, s, u, v) && Closes(u, v, x, y)
    ensures Closes(t, s, x, y)
  {}

  lemma {:induction false} DeletesKeep(tenant: bool, t: Table, s: Slots, rows: seq<Row>) returns (v: Slots)
    requires Legal(tenant, t, s) && AreRetired(t, rows)
    ensures Legal(tenant, ApplyAll(t, Deletes(rows)), v)
    ensures Closes(t, s, ApplyAll(t, Deletes(rows)), v) && |ApplyAll(t, Deletes(rows))| == |t| - |rows|
    decreases |rows|
  {
    if rows == [] {
      v := s;
    } else {
      var u := DeleteRow(t, rows[0].id);
      var first := DeleteKeeps(tenant, t, s, rows);
      v := DeletesKeep(tenant, u, first, rows[1..]);
      assert Deletes(rows)[1..] == Deletes(rows[1..]);
      ClosesOn(t, s, u, first, ApplyAll(t, Deletes(rows)), v);
    }
  }

  lemma {:induction false} HavingDistinct(t: Table, st: KeyState)
    requires Distinct(t)
    ensures Distinct(Having(t, st))
    decreases |t|
  {
    if t != [] {
      assert forall i, j :: 0 <= i < j < |t[1..]| ==> t[1..][i] == t[i + 1] && t[1..][j] == t[j + 1];
      HavingDistinct(t[1..], st);
      var rest := Having(t[1..], st);
      forall j | 0 <= j < |rest| ensures rest[j].id != t[0].id {
        HavingIs(t[1..], st, rest[j]);
        var n :| 0 <= n < |t[1..]| && t[1..][n] == rest[j];
        assert t[n + 1].id != t[0].id;
      }
    }
  }

  lemma SurplusRetired(t: Table)
    requires Distinct(t)
    ensures AreRetired(t, Surplus(t))
  {
    var newest := Newest(t, HANDLER_LIMIT);
    HavingDistinct(newest, Retired);
    var rows := Surplus(t);
    forall j | 0 <= j < |rows| ensures rows[j] in t && rows[j].state == Retired {
      HavingIs(newest, Retired, rows[j]);
      var n :| 0 <= n < |newest| && newest[n] == rows[j];
      assert t[n] == rows[j];
    }
  }

  function Least(a: nat, b: nat): nat { if a < b then a else b }

  lemma PruneKeeps(tenant: bool, t: Table, s: Slots, k: nat) returns (v: Slots)
    requires Legal(tenant, t, s)
    ensures Legal(tenant, CutShort(t, Deletes(Surplus(t)), k), v)
    ensures Closes(t, s, CutShort(t, Deletes(Surplus(t)), k), v)
    ensures |CutShort(t, Deletes(Surplus(t)), k)| == |t| - Least(k, |Surplus(t)|)
  {
    var rows := Surplus(t);
    var part := if k < |rows| then rows[..k] else rows;
    assert CutShort(t, Deletes(rows), k) == ApplyAll(t, Deletes(part)) by {
      if k < |rows| { assert Deletes(rows)[..k] == Deletes(part); }
    }
    SurplusRetired(t);
    forall j | 0 <= j < |part| ensures part[j] in t && part[j].state == Retired { assert part[j] == rows[j]; }
    v := DeletesKeep(tenant, t, s, part);
  }

  /** Does `u` stand where `t` did: the same next key, and the same certificate last signed with? */
  ghost predicate Waits(t: Table, s: Slots, u: Table, v: Slots, root: Option<Certificate>)
    requires Fits(t, s) && Fits(u, v)
  {
    && s.next >= 0 && v.next >= 0 && u[v.next] == t[s.next]
    && LastSigned(u, v, root) == LastSigned(t, s, root)
    && (v.active >= 0 ==> s.active >= 0 && u[v.active] == t[s.active])
    && (OwnLast(t, s) <==> OwnLast(u, v))
  }

  /** Has the next key of `t` taken over in `u`, what signed before now being the previous one? */
  ghost predicate TookOver(t: Table, s: Slots, u: Table, v: Slots, root: Option<Certificate>)
    requires Fits(t, s) && Fits(u, v)
  {
    && s.next >= 0 && v.next < 0
    && v.active >= 0 && u[v.active] == t[s.next].(state := Active)
    && v.previous >= 0 && Some(u[v.previous].certificate) == LastSigned(t, s, root)
  }

  ghost predicate Fresh(t: Table, id: nat) {
    forall i :: 0 <= i < |t| ==> t[i].id != id
  }

  lemma CutOne(t: Table, w: Write, k: nat)
    ensures CutShort(t, [w], k) == if k == 0 then t else Apply(t, w)
  {
    assert [w][1..] == [];
    assert ApplyAll(t, [w]) == ApplyAll(Apply(t, w), [w][1..]);
  }

  lemma CutTwo(t: Table, a: Write, b: Write, k: nat)
    ensures CutShort(t, [a, b], k) == if k == 0 then t else CutShort(Apply(t, a), [b], k - 1)
  {
    assert [a, b] == [a] + [b];
    if k > 0 {
      CutShortConcat(t, [a], [b], k);
      CutOne(t, a, 1);
    }
  }

  function Retiring(t: Table, i: nat): Write requires i < |t| { Move(t[i].id, Retired, true) }

  function Replacing(t: Table, i: nat): Write requires i < |t| { Move(t[i].id, Previous, false) }

  function SharedRow(certificate: Certificate, id: nat, now: int): Row { Row(id, true, Previous, certificate, false, now) }

  lemma MakeRoomIs(t: Table, s: Slots, root: Option<Certificate>, id: nat, now: int)
    requires Legal(root.Some?, t, s) && Near(t, s) && s.next >= 0
    ensures MakeRoom(t, root, id, now) ==
      if s.active >= 0 && s.previous >= 0 then [Retiring(t, s.previous), Replacing(t, s.active)]
      else if s.active >= 0 then [Replacing(t, s.active)]
      else if s.previous >= 0 then []
      else [Insert(SharedRow(root.value, id, now))]
  {
    hide Leads, AllShared, Distinct, First, Having;
    ReadsAll(t, s, HANDLER_LIMIT);
    assert RetireMoves([]) == [];
    assert s.previous >= 0 ==> RetireMoves([t[s.previous]]) == [Retiring(t, s.previous)];
  }

  /** Replacing the active key, cut short before or after the write. */
  lemma ReplaceKeeps(t: Table, s: Slots, root: Option<Certificate>, k: nat) returns (v: Slots)
    requires Legal(root.Some?, t, s) && Near(t, s) && s.next >= 0 && s.active >= 0 && s.previous < 0
    ensures Legal(root.Some?, CutShort(t, [Replacing(t, s.active)], k), v) && Near(CutShort(t, [Replacing(t, s.active)], k), v)
    ensures Waits(t, s, CutShort(t, [Replacing(t, s.active)], k), v, root)
    ensures k >= 1 ==> v.active < 0 && v.previous >= 0
  {
    CutOne(t, Replacing(t, s.active), k);
    if k == 0 {
      v := s;
    } else {
      v := Slots(s.next, -1, s.active);
      ActiveToPreviousKeeps(root.Some?, t, s);
      MoveAt(t, s.active, Previous, false);
    }
  }

  /** The same with an older previous key, which is retired first. */
  lemma RetireThenReplaceKeeps(t: Table, s: Slots, root: Option<Certificate>, k: nat) returns (v: Slots)
    requires Legal(root.Some?, t, s) && Near(t, s) && s.next >= 0 && s.active >= 0 && s.previous >= 0
    ensures var u := CutShort(t, [Retiring(t, s.previous), Replacing(t, s.active)], k);
      && Legal(root.Some?, u, v) && Near(u, v) && Waits(t, s, u, v, root)
      && (k >= 2 ==> v.active < 0 && v.previous >= 0)
  {
    hide Leads, AllShared, Distinct;
    CutTwo(t, Retiring(t, s.previous), Replacing(t, s.active), k);
    if k == 0 {
      v := s;
    } else {
      RetirePreviousKeeps(root.Some?, t, s);
      MoveAt(t, s.previous, Retired, true);
      v := ReplaceKeeps(MoveRow(t, t[s.previous].id, Retired, true), s.(previous := -1), root, k - 1);
    }
  }

  /** Freeing the active slot, cut short anywhere. */
  lemma RoomKeeps(t: Table, s: Slots, root: Option<Certificate>, id: nat, now: int, k: nat) returns (v: Slots)
    requires Legal(root.Some?, t, s) && Near(t, s) && s.next >= 0 && Fresh(t, id)
    ensures var u := CutShort(t, MakeRoom(t, root, id, now), k);
      && Legal(root.Some?, u, v) && Near(u, v) && Waits(t, s, u, v, root)
      && (!OwnLast(t, s) ==> |u| == |t| + Least(k, |MakeRoom(t, root, id, now)|))
    ensures k >= |MakeRoom(t, root, id, now)| ==> v.active < 0 && v.previous >= 0
  {
    hide Leads, AllShared, Distinct;
    MakeRoomIs(t, s, root, id, now);
    if s.active >= 0 && s.previous >= 0 {
      v := RetireThenReplaceKeeps(t, s, root, k);
    } else if s.active >= 0 {
      v := ReplaceKeeps(t, s, root, k);
    } else if s.previous >= 0 {
      v := s;
    } else {
      InsertSharedKeeps(t, s, SharedRow(root.value, id, now));
      CutOne(t, Insert(SharedRow(root.value, id, now)), k);
      v := if k == 0 then s else Slots(s.next + 1, -1, 0);
    }
  }

  /** How many rows the pruning after the next key's move would take. */
  function Pruned(t: Table, next: nat): nat { |TakeOver(t, next)| - 1 }

  lemma MakeActiveKeeps(t: Table, s: Slots, root: Option<Certificate>, k: nat) returns (v: Slots)
    requires Legal(root.Some?, t, s) && Near(t, s) && s.next >= 0 && s.active < 0 && s.previous >= 0
    ensures var u := CutShort(t, TakeOver(t, t[s.next].id), k);
      && Legal(root.Some?, u, v)
      && (k == 0 ==> u == t && v == s)
      && (k > 0 ==> TookOver(t, s, u, v, root))
      && (OwnLast(t, s) ==> Near(u, v))
      && (!OwnLast(t, s) && k > 0 ==> v.active == |u| - 1 && |u| == |t| - Least(k - 1, Pruned(t, t[s.next].id)))
  {
    var move := Move(t[s.next].id, Active, false);
    var u := Apply(t, move);
    CutShortConcat(t, [move], Deletes(Surplus(u)), k);
    CutOne(t, move, 1);
    if k == 0 {
      v := s;
    } else {
      TakeOverKeeps(root.Some?, t, s);
      MoveAt(t, s.next, Active, false);
      v := PruneKeeps(root.Some?, u, Slots(-1, s.next, s.previous), k - 1);
    }
  }

  /**
   * How many rows a tenant's first activation leaves: it may record the shared key, and prunes as
   * many rows as it gets to.
   */
  function FirstLeaves(t: Table, next: nat, root: Option<Certificate>, id: nat, now: int, k: nat): int {
    var room := MakeRoom(t, root, id, now);
    |t| + |room| - if k <= |room| then 0 else Least(k - |room| - 1, Pruned(ApplyAll(t, room), next))
  }

  /** The next key comes to sign by these writes. */
  predicate Reaches(t: Table, root: Option<Certificate>, id: nat, now: int, k: nat) { k > |MakeRoom(t, root, id, now)| }

  lemma RoomIsOne(t: Table, s: Slots, root: Option<Certificate>, id: nat, now: int)
    requires Legal(root.Some?, t, s) && Near(t, s) && s.next >= 0
    ensures !OwnLast(t, s) ==> |MakeRoom(t, root, id, now)| <= 1
  {
    MakeRoomIs(t, s, root, id, now);
  }

  /** Once the slot is free: the next key takes it, and rows are pruned. */
  lemma FinishKeeps(t: Table, s: Slots, mid: Table, m: Slots, root: Option<Certificate>, k: nat) returns (v: Slots)
    requires Legal(root.Some?, mid, m) && Near(mid, m) && m.active < 0 && m.previous >= 0
    requires Fits(t, s) && s.next >= 0 && Waits(t, s, mid, m, root)
    ensures var u := CutShort(mid, TakeOver(mid, t[s.next].id), k);
      && Legal(root.Some?, u, v)
      && (if k > 0 then TookOver(t, s, u, v, root) else Waits(t, s, u, v, root) && Near(u, v))
      && (OwnLast(t, s) ==> Near(u, v))
      && (!OwnLast(t, s) && k > 0 ==> v.active == |u| - 1 && |u| == |mid| - Least(k - 1, Pruned(mid, t[s.next].id)))
      && v.previous >= 0
  {
    hide TakeOver, CutShort, Pruned, Leads, AllShared, Distinct;
    v := MakeActiveKeeps(mid, m, root, k);
  }

  lemma ReplacementKeeps(t: Table, s: Slots, root: Option<Certificate>, id: nat, now: int, k: nat) returns (v: Slots)
    requires Legal(root.Some?, t, s) && Near(t, s) && s.next >= 0 && Fresh(t, id)
    ensures var u := CutShort(t, Replacement(t, t[s.next].id, root, id, now), k);
      && Legal(root.Some?, u, v)
      && (if Reaches(t, root, id, now, k) then TookOver(t, s, u, v, root) else Waits(t, s, u, v, root) && Near(u, v))
      && (OwnLast(t, s) ==> Near(u, v))
      && (!OwnLast(t, s) && Reaches(t, root, id, now, k) ==> v.active == |u| - 1 && |u| == FirstLeaves(t, t[s.next].id, root, id, now, k))
      && (!OwnLast(t, s) && k > 0 ==> v.previous >= 0)
  {
    hide MakeRoom, CutShort, TakeOver, ApplyAll, Pruned, Waits, TookOver, Near;
    var room := MakeRoom(t, root, id, now);
    var mid := ApplyAll(t, room);
    CutShortConcat(t, room, TakeOver(mid, t[s.next].id), k);
    RoomIsOne(t, s, root, id, now);
    var m := RoomKeeps(t, s, root, id, now, k);
    if k >= |room| {
      CutAll(t, room, k);
      v := FinishKeeps(t, s, mid, m, root, k - |room|);
    } else {
      v := m;
    }
  }

  /**
   * An activation cut short anywhere: the table stays legal; and either the next key still waits,
   * with nothing changed about who signed last, or it has taken over and what signed before it is
   * the previous key. Its row is then among those signing reads, unless it is a tenant's first key
   * and more rows than that are left.
   */
  lemma ActivateKeeps(t: Table, s: Slots, root: Option<Certificate>, id: nat, now: int, force: bool, min: nat, k: nat) returns (v: Slots)
    requires Legal(root.Some?, t, s) && Near(t, s) && s.next >= 0 && Fresh(t, id)
    ensures var plan := ActivatePlan(t, root, id, now, force, min);
      var u := CutShort(t, plan, k);
      && Legal(root.Some?, u, v)
      && (plan == [] <==> s.next >= HANDLER_LIMIT || !MayActivate(t[s.next], now, force, min))
      && (if plan != [] && Reaches(t, root, id, now, k) then TookOver(t, s, u, v, root) else Waits(t, s, u, v, root))
      && (Near(u, v) <==> OwnLast(t, s) || plan == [] || !Reaches(t, root, id, now, k) || FirstLeaves(t, t[s.next].id, root, id, now, k) <= LOAD_LIMIT)
      && (!OwnLast(t, s) && OwnLast(u, v) ==> Main(v) == |u| - 1)
      && (!OwnLast(t, s) && k > 0 && plan != [] ==> v.previous >= 0)
  {
    hide MakeRoom, Replacement, CutShort, FirstLeaves;
    ReadsAll(t, s, HANDLER_LIMIT);
    if s.next >= HANDLER_LIMIT || !MayActivate(t[s.next], now, force, min) {
      CutNone(t, k);
      v := s;
    } else {
      v := ReplacementKeeps(t, s, root, id, now, k);
    }
  }

  lemma CutAll(t: Table, ws: seq<Write>, k: nat)
    ensures k >= |ws| ==> CutShort(t, ws, k) == ApplyAll(t, ws)
  {}

  lemma CutNone(t: Table, k: nat)
    ensures CutShort(t, [], k) == t
  {}

  lemma RotateKeeps(tenant: bool, t: Table, s: Slots, id: nat, certificate: Certificate, now: int, k: nat) returns (v: Slots)
    requires Legal(tenant, t, s) && Near(t, s) && Fresh(t, id)
    ensures var u := Leaves(t, RotatePlan(t, id, certificate, now), k);
      && Legal(tenant, u, v)
      && (s.next >= 0 || k == 0 ==> u == t && v == s)
      && (s.next < 0 && k > 0 ==> u == [Row(id, false, Next, certificate, true, now)] + t && v == Slots(0, Below(s.active), Below(s.previous)))
      && (Near(u, v) <==> s.next >= 0 || k == 0 || (OwnLast(t, s) ==> Main(s) < LOAD_LIMIT - 1))
  {
    hide Leads, AllShared, Distinct;
    ReadsAll(t, s, HANDLER_LIMIT);
    var row := Row(id, false, Next, certificate, true, now);
    OneWrite(t, Insert(row), k);
    if s.next >= 0 {
      assert t[s.next].state == Next && Has(t, Next);
      v := s;
    } else if k == 0 {
      v := s;
    } else {
      InsertNextKeeps(tenant, t, s, row);
      v := Slots(0, Below(s.active), Below(s.previous));
    }
  }

  lemma RetirePlanIs(t: Table, s: Slots)
    requires Fits(t, s) && s.previous < HANDLER_LIMIT
    ensures s.previous < 0 ==> RetirePlan(t) == []
    ensures s.previous >= 0 ==>
      RetirePlan(t) == [Retiring(t, s.previous)] + Deletes(Surplus(Apply(t, Retiring(t, s.previous))))
  {
    ReadsAll(t, s, HANDLER_LIMIT);
    if s.previous >= 0 {
      assert RetireMoves([t[s.previous]]) == [Retiring(t, s.previous)];
      CutOne(t, Retiring(t, s.previous), 1);
    }
  }

  /**
   * `retire`, cut short anywhere, while a key is active or before a tenant has one of its own: only
   * the previous row goes.
   */
  lemma RetireKeeps(tenant: bool, t: Table, s: Slots, k: nat) returns (v: Slots)
    requires Legal(tenant, t, s) && Near(t, s) && (s.active >= 0 || !OwnLast(t, s))
    ensures var u := CutShort(t, RetirePlan(t), k);
      && Legal(tenant, u, v) && Near(u, v)
      && RowAt(u, v.next) == RowAt(t, s.next) && RowAt(u, v.active) == RowAt(t, s.active) && (OwnLast(u, v) <==> OwnLast(t, s))
      && RowAt(u, v.previous) == if k == 0 then RowAt(t, s.previous) else None
  {
    RetirePlanIs(t, s);
    if s.previous >= 0 {
      v := RetirementKeeps(tenant, t, s, k);
    } else {
      CutNone(t, k);
      v := s;
    }
  }

  lemma RetirementKeeps(tenant: bool, t: Table, s: Slots, k: nat) returns (v: Slots)
    requires Legal(tenant, t, s) && Near(t, s) && (s.active >= 0 || !OwnLast(t, s)) && s.previous >= 0
    ensures var move := Retiring(t, s.previous);
      var u := CutShort(t, [move] + Deletes(Surplus(Apply(t, move))), k);
      && Legal(tenant, u, v) && Near(u, v)
      && RowAt(u, v.next) == RowAt(t, s.next) && RowAt(u, v.active) == RowAt(t, s.active) && (OwnLast(u, v) <==> OwnLast(t, s))
      && RowAt(u, v.previous) == if k == 0 then RowAt(t, s.previous) else None
  {
    hide Surplus, CutShort, Deletes, AllShared, Leads;
    var move := Retiring(t, s.previous);
    var u := Apply(t, move);
    CutOne(t, move, k);
    CutShortConcat(t, [move], Deletes(Surplus(u)), k);
    v := s;
    if k > 0 {
      CutOne(t, move, 1);
      MoveAt(t, s.previous, Retired, true);
      if s.active >= 0 { RetirePreviousKeeps(tenant, t, s); } else { RetireSharedKeeps(tenant, t, s); }
      v := PruneKeeps(tenant, u, s.(previous := -1), k - 1);
    }
  }

  // ---- Who signs ------------------------------------------------------------------------

  lemma HadOwnIs(tenant: bool, t: Table, s: Slots)
    requires Legal(tenant, t, s)
    ensures HadOwn(t) <==> OwnLast(t, s)
  {
    if s.active >= 0 { assert !t[s.active].shared; }
    if Own(t, s.previous) { assert !t[s.previous].shared; }
  }

  /** An own row that is active, or was when an activation was cut short. */
  predicate OwnLive(t: Table) {
    exists i :: 0 <= i < |t| && !t[i].shared && t[i].state in {Active, Previous}
  }

  /** A reading of `limit` rows shows such a row exactly if the one that signs, or signed last, is among them. */
  lemma LiveIsMain(tenant: bool, t: Table, s: Slots, limit: nat)
    requires Legal(tenant, t, s)
    ensures OwnLive(Newest(t, limit)) <==> OwnLast(t, s) && Main(s) < limit
  {
    var u := Newest(t, limit);
    assert forall i :: 0 <= i < |u| ==> u[i] == t[i];
    if OwnLast(t, s) && Main(s) < limit { assert !u[Main(s)].shared && u[Main(s)].state in {Active, Previous}; }
    if OwnLive(u) {
      var i :| 0 <= i < |u| && !u[i].shared && u[i].state in {Active, Previous};
      assert i == s.active || i == s.previous;
    }
  }

  /**
   * Who signs: the active key; nobody while an activation between two own keys is cut short; and the
   * shared key only for a tenant that has had no key of its own.
   */
  lemma SigningIs(t: Table, s: Slots, root: Option<Certificate>)
    requires Legal(root.Some?, t, s) && Near(t, s)
    ensures s.active >= 0 ==> SigningOf(t, root).OwnKey? && SigningOf(t, root).row == t[s.active]
    ensures s.active < 0 && (HadOwn(t) || root.None?) ==> SigningOf(t, root) == Refused
    ensures s.active < 0 && !HadOwn(t) && root.Some? ==> SigningOf(t, root).SharedKey? && SigningOf(t, root).certificate == root.value
  {
    hide Leads, AllShared;
    ReadsAll(t, s, LOAD_LIMIT);
    HadOwnIs(root.Some?, t, s);
    var rows := Newest(t, LOAD_LIMIT);
    assert forall i :: 0 <= i < |rows| ==> rows[i] == t[i];
    ReadsState(t, Active, s.active, LOAD_LIMIT);
    if s.active < 0 && HadOwn(t) { assert !rows[s.previous].shared; }
  }

  /** The certificates of the next and previous keys that are shown, and the signing one, are in the metadata. */
  lemma PublishedIs(t: Table, s: Slots, root: Option<Certificate>)
    requires Legal(root.Some?, t, s) && Near(t, s) && SigningOf(t, root) != Refused
    ensures 0 <= s.previous < LOAD_LIMIT ==> t[s.previous].certificate in SigningOf(t, root).published
    ensures 0 <= s.next < LOAD_LIMIT ==> t[s.next].certificate in SigningOf(t, root).published
    ensures s.active >= 0 ==> t[s.active].certificate in SigningOf(t, root).published
  {
    SigningIs(t, s, root);
    var rows := Newest(t, LOAD_LIMIT);
    assert 0 <= s.previous < LOAD_LIMIT ==> rows[s.previous] == t[s.previous];
    assert 0 <= s.next < LOAD_LIMIT ==> rows[s.next] == t[s.next];
  }
}
