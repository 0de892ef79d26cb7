/**
The life of a signing key (`next`, `active`, `previous`, `retired`) for one owner: a tenant, or the
root IdP's managed key. The handlers write the key table one row at a time and can be cut short
between any two writes.

A handler reads its rows once, and the writes it then makes depend only on that read, so it is
modelled as a plan: the sequence of writes it intends. A run that is cut short, by a database that
stops answering or refuses a write, applies a prefix of the plan. Class `KeyTable` has the handlers as
methods, against such a database; the lemmas are about the plans.
*/
module KeyRotation {
  import opened Optional

  type Certificate = string

  datatype KeyState = Next | Active | Previous | Retired

  /** `shared`: the row's kid is "shared", recording the certificate a tenant used before its own. */
  datatype Row = Row(id: nat, shared: bool, state: KeyState, certificate: Certificate, hasKey: bool, createdAt: int)

  /** One row write. Leaving `erase` unset keeps the private key. */
  datatype Write =
    | Insert(row: Row)
    | Move(id: nat, to: KeyState, erase: bool)
    | Delete(id: nat)

  /** The rows of one owner, newest first, which is the order the handlers read them in. */
  type Table = seq<Row>

  const KEEP_RETIRED := 5
  /** Rows a handler reads (`keyRows`), and rows the signing path reads (`load`). */
  const HANDLER_LIMIT := 100
  const LOAD_LIMIT := 50

  function Newest(t: Table, limit: nat): Table {
    if |t| <= limit then t else t[..limit]
  }

  function First(t: Table, s: KeyState): (r: Option<Row>)
    ensures r.Some? ==> r.value in t && r.value.state == s
    ensures r.None? <==> forall i :: 0 <= i < |t| ==> t[i].state != s
  {
    if t == [] then None else if t[0].state == s then Some(t[0]) else
      assert t == [t[0]] + t[1..];
      First(t[1..], s)
  }

  function Having(t: Table, s: KeyState): (r: seq<Row>)
    ensures |r| <= |t|
    ensures r == [] <==> First(t, s).None?
  {
    if t == [] then [] else
      assert t == [t[0]] + t[1..];
      if t[0].state == s then [t[0]] + Having(t[1..], s) else Having(t[1..], s)
  }

  /** `Having` is exactly the rows in that state. */
  lemma {:induction false} HavingIs(t: Table, s: KeyState, row: Row)
    ensures row in Having(t, s) <==> row in t && row.state == s
  {
    if t != [] {
      assert t == [t[0]] + t[1..];
      HavingIs(t[1..], s, row);
    }
  }

  predicate Has(t: Table, s: KeyState) {
    exists i :: 0 <= i < |t| && t[i].state == s
  }

  // ---- Row writes -----------------------------------------------------------------------

  function MoveRow(t: Table, id: nat, to: KeyState, erase: bool): Table {
    seq(|t|, i requires 0 <= i < |t| =>
      if t[i].id == id then t[i].(state := to, hasKey := t[i].hasKey && !erase) else t[i])
  }

  function DeleteRow(t: Table, id: nat): Table {
    if t == [] then [] else if t[0].id == id then DeleteRow(t[1..], id) else [t[0]] + DeleteRow(t[1..], id)
  }

  function Apply(t: Table, w: Write): Table {
    match w
    case Insert(row) => [row] + t
    case Move(id, to, erase) => MoveRow(t, id, to, erase)
    case Delete(id) => DeleteRow(t, id)
  }

  function ApplyAll(t: Table, ws: seq<Write>): Table
    decreases |ws|
  {
    if ws == [] then t else ApplyAll(Apply(t, ws[0]), ws[1..])
  }

  /** The UNIQUE state key: a write into `next` or `active` fails if another row holds that slot. */
  predicate Permitted(t: Table, w: Write) {
    match w
    case Insert(row) => row.state in {Next, Active} ==> !Has(t, row.state)
    case Move(id, to, _) => to in {Next, Active} ==> forall i :: 0 <= i < |t| && t[i].state == to ==> t[i].id == id
    case Delete(_) => true
  }

  // ---- What the handlers intend ---------------------------------------------------------

  function RotatePlan(t: Table, id: nat, certificate: Certificate, now: int): seq<Write> {
    if First(Newest(t, HANDLER_LIMIT), Next).Some? then []
    else [Insert(Row(id, false, Next, certificate, true, now))]
  }

  function RetireMoves(rows: seq<Row>): seq<Write> {
    seq(|rows|, i requires 0 <= i < |rows| => Move(rows[i].id, Retired, true))
  }

  function Deletes(rows: seq<Row>): seq<Write> {
    seq(|rows|, i requires 0 <= i < |rows| => Delete(rows[i].id))
  }

  /** Retired rows past the newest KEEP_RETIRED. */
  function Surplus(t: Table): seq<Row> {
    var retired := Having(Newest(t, HANDLER_LIMIT), Retired);
    if |retired| <= KEEP_RETIRED then [] else retired[KEEP_RETIRED..]
  }

  /** `root`: the certificate a tenant signed with until its own first key; none for the root itself. */
  function MakeRoom(t: Table, root: Option<Certificate>, id: nat, now: int): seq<Write> {
    var keys := Newest(t, HANDLER_LIMIT);
    match First(keys, Active)
    case Some(active) => RetireMoves(Having(keys, Previous)) + [Move(active.id, Previous, false)]
    case None =>
      if root.None? || Having(keys, Previous) != [] then []
      else [Insert(Row(id, true, Previous, root.value, false, now))]
  }

  /** May `next` be activated at `now`: published for `minPublished`, or forced. */
  predicate MayActivate(next: Row, now: int, force: bool, minPublished: nat) {
    force || next.createdAt + minPublished <= now
  }

  /** The key `id` becomes the active one, and surplus retired rows go. */
  function TakeOver(t: Table, id: nat): seq<Write> {
    var move := [Move(id, Active, false)];
    move + Deletes(Surplus(ApplyAll(t, move)))
  }

  /** The slot of the active key is freed, and `next` takes it. */
  function Replacement(t: Table, next: nat, root: Option<Certificate>, id: nat, now: int): (ws: seq<Write>)
    ensures ws != []
  {
    var room := MakeRoom(t, root, id, now);
    room + TakeOver(ApplyAll(t, room), next)
  }

  function ActivatePlan(t: Table, root: Option<Certificate>, id: nat, now: int, force: bool, minPublished: nat): seq<Write> {
    match First(Newest(t, HANDLER_LIMIT), Next)
    case None => []
    case Some(next) =>
      if !MayActivate(next, now, force, minPublished) then [] else Replacement(t, next.id, root, id, now)
  }

  /** These rows are retired, and surplus retired rows go. */
  function Retirement(t: Table, rows: seq<Row>): (ws: seq<Write>)
    ensures rows != [] ==> ws != []
  {
    RetireMoves(rows) + Deletes(Surplus(ApplyAll(t, RetireMoves(rows))))
  }

  function RetirePlan(t: Table): seq<Write> {
    var previous := Having(Newest(t, HANDLER_LIMIT), Previous);
    if previous == [] then [] else Retirement(t, previous)
  }

  /** The table after a handler with plan `ws` that got `k` of its writes through. */
  function CutShort(t: Table, ws: seq<Write>, k: nat): Table {
    ApplyAll(t, if k < |ws| then ws[..k] else ws)
  }

  /** How many of the plan's first `k` writes get through: until the UNIQUE state key refuses one. */
  function Through(t: Table, ws: seq<Write>, k: nat): (n: nat)
    ensures n <= k && n <= |ws|
    decreases |ws|
  {
    if ws == [] || k == 0 || !Permitted(t, ws[0]) then 0 else 1 + Through(Apply(t, ws[0]), ws[1..], k - 1)
  }

  /** The table that a handler with plan `ws` leaves when `k` writes are answered. */
  function Leaves(t: Table, ws: seq<Write>, k: nat): Table { CutShort(t, ws, Through(t, ws, k)) }

  // ---- Who signs ------------------------------------------------------------------------

  datatype Signing =
    | OwnKey(row: Row, published: set<Certificate>)
    | SharedKey(certificate: Certificate, published: set<Certificate>)
    | Refused

  function PublishedRows(t: Table): set<Certificate> {
    set i | 0 <= i < |t| && t[i].state in {Next, Previous} :: t[i].certificate
  }

  function SigningOf(t: Table, root: Option<Certificate>): Signing {
    var rows := Newest(t, LOAD_LIMIT);
    match First(rows, Active)
    case Some(own) =>
      if |Having(rows, Active)| > 1 || !own.hasKey then Refused
      else OwnKey(own, PublishedRows(rows) + {own.certificate})
    case None =>
      if root.None? || exists i :: 0 <= i < |rows| && !rows[i].shared && rows[i].state != Next then Refused
      else SharedKey(root.value, PublishedRows(rows) + {root.value})
  }

  // ---- The handlers, against a database that may stop answering --------------------------

  datatype Outcome = Done | Refuse | Crashed

  /** A handler with plan `ws` found table `t`, and up to `k` of its writes were answered. */
  ghost predicate Ran(t: Table, ws: seq<Write>, k: nat, t': Table, r: Outcome) {
    && t' == Leaves(t, ws, k)
    && (r == Refuse <==> ws == [])
    && (r == Done <==> ws != [] && Through(t, ws, k) == |ws|)
  }

  class KeyTable {
    var rows: Table
    /** How many more writes are answered before this process is lost. */
    var writesLeft: nat

    constructor (rows: Table, writesLeft: nat)
      ensures this.rows == rows && this.writesLeft == writesLeft
    {
      this.rows := rows;
      this.writesLeft := writesLeft;
    }

    /** One write. Unanswered or refused it is the handler's last. */
    method WriteRow(w: Write) returns (ok: bool)
      modifies this
      ensures ok == (old(writesLeft) > 0 && Permitted(old(rows), w))
      ensures ok ==> rows == Apply(old(rows), w) && writesLeft == old(writesLeft) - 1
      ensures !ok ==> rows == old(rows) && writesLeft == 0
    {
      ok := writesLeft > 0 && Permitted(rows, w);
      if ok { rows := Apply(rows, w); }
      writesLeft := if ok then writesLeft - 1 else 0;
    }

    /** Each of `ws` in turn: the loops of the handlers. */
    method WriteEach(ws: seq<Write>) returns (ok: bool)
      modifies this
      ensures ok == (Through(old(rows), ws, old(writesLeft)) == |ws|)
      ensures rows == Leaves(old(rows), ws, old(writesLeft))
      ensures writesLeft == if ok then old(writesLeft) - |ws| else 0
    {
      var n := 0;
      ok := true;
      while n < |ws|
        invariant 0 <= n <= |ws|
        invariant rows == ApplyAll(old(rows), ws[..n])
        invariant n <= old(writesLeft) && writesLeft == old(writesLeft) - n
        invariant Through(old(rows), ws, old(writesLeft)) == n + Through(rows, ws[n..], writesLeft)
      {
        assert ws[n..][1..] == ws[n + 1..];
        ok := WriteRow(ws[n]);
        if !ok { return; }
        ApplyAllSnoc(old(rows), ws[..n], ws[n]);
        assert ws[..n + 1] == ws[..n] + [ws[n]];
        n := n + 1;
      }
      assert ws[..|ws|] == ws;
    }

    /** Keep the newest KEEP_RETIRED retired rows. */
    method PruneRetired() returns (ok: bool)
      modifies this
      ensures ok == (Through(old(rows), Deletes(Surplus(old(rows))), old(writesLeft)) == |Surplus(old(rows))|)
      ensures rows == Leaves(old(rows), Deletes(Surplus(old(rows))), old(writesLeft))
    {
      var retired := Having(Newest(rows, HANDLER_LIMIT), Retired);
      var surplus := if |retired| <= KEEP_RETIRED then [] else retired[KEEP_RETIRED..];
      ok := WriteEach(Deletes(surplus));
    }

    /**
     * The slot of the active key, freed. An active row becomes the previous one, and an older
     * previous is retired. With neither an active nor a previous row, the shared certificate a
     * tenant signed with is recorded as its previous one. With only a previous row, an activation
     * was cut short here, and nothing is written.
     */
    method FreeActive(root: Option<Certificate>, id: nat, now: int) returns (ok: bool)
      modifies this
      ensures ok == (Through(old(rows), MakeRoom(old(rows), root, id, now), old(writesLeft)) == |MakeRoom(old(rows), root, id, now)|)
      ensures rows == Leaves(old(rows), MakeRoom(old(rows), root, id, now), old(writesLeft))
      ensures ok ==> writesLeft == old(writesLeft) - |MakeRoom(old(rows), root, id, now)|
    {
      ghost var t, left := rows, writesLeft;
      var keys := Newest(rows, HANDLER_LIMIT);
      var active := First(keys, Active);
      var previous := Having(keys, Previous);
      ok := true;
      if active.Some? {
        LeavesConcat(t, RetireMoves(previous), [Move(active.value.id, Previous, false)], left);
        ok := WriteEach(RetireMoves(previous));
        if ok {
          ok := WriteEach([Move(active.value.id, Previous, false)]);
        }
      } else if previous == [] && root.Some? {
        ok := WriteEach([Insert(Row(id, true, Previous, root.value, false, now))]);
      }
    }

    method MakeActive(id: nat) returns (ok: bool)
      modifies this
      ensures ok == (Through(old(rows), TakeOver(old(rows), id), old(writesLeft)) == |TakeOver(old(rows), id)|)
      ensures rows == Leaves(old(rows), TakeOver(old(rows), id), old(writesLeft))
    {
      ghost var move := [Move(id, Active, false)];
      LeavesConcat(rows, move, Deletes(Surplus(ApplyAll(rows, move))), writesLeft);
      ok := WriteEach([Move(id, Active, false)]);
      if ok {
        ok := PruneRetired();
      }
    }

    method Replace(next: nat, root: Option<Certificate>, id: nat, now: int) returns (ok: bool)
      modifies this
      ensures ok == (Through(old(rows), Replacement(old(rows), next, root, id, now), old(writesLeft)) == |Replacement(old(rows), next, root, id, now)|)
      ensures rows == Leaves(old(rows), Replacement(old(rows), next, root, id, now), old(writesLeft))
    {
      hide MakeRoom, Through, CutShort, ApplyAll, TakeOver, Permitted;
      LeavesInTwo(rows, MakeRoom(rows, root, id, now), next, Replacement(rows, next, root, id, now), writesLeft);
      ok := FreeActive(root, id, now);
      if ok { ok := MakeActive(next); }
    }

    method RetireRows(previous: seq<Row>) returns (ok: bool)
      modifies this
      ensures ok == (Through(old(rows), Retirement(old(rows), previous), old(writesLeft)) == |Retirement(old(rows), previous)|)
      ensures rows == Leaves(old(rows), Retirement(old(rows), previous), old(writesLeft))
    {
      ghost var moves := RetireMoves(previous);
      LeavesConcat(rows, moves, Deletes(Surplus(ApplyAll(rows, moves))), writesLeft);
      ok := WriteEach(RetireMoves(previous));
      if ok { ok := PruneRetired(); }
    }

    method Rotate(id: nat, certificate: Certificate, now: int) returns (r: Outcome)
      modifies this
      ensures Ran(old(rows), RotatePlan(old(rows), id, certificate, now), old(writesLeft), rows, r)
    {
      if First(Newest(rows, HANDLER_LIMIT), Next).Some? { return Refuse; }
      ghost var plan := RotatePlan(rows, id, certificate, now);
      ghost var left := writesLeft;
      OneWrite(rows, plan[0], left);
      var ok := WriteRow(Insert(Row(id, false, Next, certificate, true, now)));
      r := if ok then Done else Crashed;
    }

    method Activate(root: Option<Certificate>, id: nat, now: int, force: bool, minPublished: nat) returns (r: Outcome)
      modifies this
      ensures Ran(old(rows), ActivatePlan(old(rows), root, id, now, force, minPublished), old(writesLeft), rows, r)
    {
      var next := First(Newest(rows, HANDLER_LIMIT), Next);
      if next.None? || !MayActivate(next.value, now, force, minPublished) { return Refuse; }
      var ok := Replace(next.value.id, root, id, now);
      r := if ok then Done else Crashed;
    }

    method Retire() returns (r: Outcome)
      modifies this
      ensures Ran(old(rows), RetirePlan(old(rows)), old(writesLeft), rows, r)
    {
      var previous := Having(Newest(rows, HANDLER_LIMIT), Previous);
      if previous == [] { return Refuse; }
      var ok := RetireRows(previous);
      r := if ok then Done else Crashed;
    }
  }

  // ---- Plans and prefixes ---------------------------------------------------------------

  lemma {:induction false} ApplyAllConcat(t: Table, a: seq<Write>, b: seq<Write>)
    decreases |a|
    ensures ApplyAll(t, a + b) == ApplyAll(ApplyAll(t, a), b)
  {
    if a == [] {
      assert a + b == b;
    } else {
      assert (a + b)[0] == a[0] && (a + b)[1..] == a[1..] + b;
      ApplyAllConcat(Apply(t, a[0]), a[1..], b);
    }
  }

  lemma ApplyAllSnoc(t: Table, a: seq<Write>, w: Write)
    ensures ApplyAll(t, a + [w]) == Apply(ApplyAll(t, a), w)
  {
    ApplyAllConcat(t, a, [w]);
    assert [w][1..] == [];
    var u := ApplyAll(t, a);
    assert ApplyAll(u, [w]) == ApplyAll(Apply(u, w), [w][1..]);
  }

  /** A plan cut short inside its first part. */
  lemma CutShortSplit(t: Table, a: seq<Write>, b: seq<Write>, k: nat)
    ensures k < |a| ==> CutShort(t, a + b, k) == CutShort(t, a, k)
  {
    if k < |a| {
      assert (a + b)[..k] == a[..k];
    }
  }

  /** A plan cut short after its first part. */
  lemma CutShortConcat(t: Table, a: seq<Write>, b: seq<Write>, k: nat)
    ensures k >= |a| ==> CutShort(t, a + b, k) == CutShort(ApplyAll(t, a), b, k - |a|)
    ensures k < |a| ==> CutShort(t, a + b, k) == CutShort(t, a, k)
  {
    if k >= |a| {
      if k < |a| + |b| {
        assert (a + b)[..k] == a + b[..k - |a|];
        ApplyAllConcat(t, a, b[..k - |a|]);
      } else {
        ApplyAllConcat(t, a, b);
      }
    } else {
      CutShortSplit(t, a, b, k);
    }
  }

  lemma {:induction false} ThroughConcat(t: Table, a: seq<Write>, b: seq<Write>, k: nat)
    ensures Through(t, a, k) < |a| ==> Through(t, a + b, k) == Through(t, a, k)
    ensures Through(t, a, k) == |a| ==> Through(t, a + b, k) == |a| + Through(ApplyAll(t, a), b, k - |a|)
    decreases |a|
  {
    if a == [] {
      assert a + b == b;
    } else {
      assert (a + b)[0] == a[0] && (a + b)[1..] == a[1..] + b;
      if k > 0 && Permitted(t, a[0]) { ThroughConcat(Apply(t, a[0]), a[1..], b, k - 1); }
    }
  }

  /** A handler stopped in its first part left what that part leaves; past it, what its second part leaves. */
  lemma LeavesConcat(t: Table, a: seq<Write>, b: seq<Write>, k: nat)
    ensures Through(t, a, k) < |a| ==> Through(t, a + b, k) == Through(t, a, k) && Leaves(t, a + b, k) == Leaves(t, a, k)
    ensures Through(t, a, k) == |a| ==> Through(t, a + b, k) == |a| + Through(ApplyAll(t, a), b, k - |a|)
    ensures Through(t, a, k) == |a| ==> Leaves(t, a, k) == ApplyAll(t, a) && Leaves(t, a + b, k) == Leaves(ApplyAll(t, a), b, k - |a|)
  {
    ThroughConcat(t, a, b, k);
    CutShortConcat(t, a, b, Through(t, a + b, k));
  }

  lemma LeavesInTwo(t: Table, a: seq<Write>, next: nat, all: seq<Write>, k: nat)
    requires all == a + TakeOver(ApplyAll(t, a), next)
    ensures Through(t, a, k) < |a| ==> Through(t, all, k) < |all| && Leaves(t, all, k) == Leaves(t, a, k)
    ensures Through(t, a, k) == |a| ==> var u := Leaves(t, a, k);
      && (Through(t, all, k) == |all| <==> Through(u, TakeOver(u, next), k - |a|) == |TakeOver(u, next)|)
      && Leaves(t, all, k) == Leaves(u, TakeOver(u, next), k - |a|)
  {
    LeavesConcat(t, a, TakeOver(ApplyAll(t, a), next), k);
  }

  lemma OneWrite(t: Table, w: Write, k: nat)
    ensures Through(t, [w], k) == (if k > 0 && Permitted(t, w) then 1 else 0)
    ensures Leaves(t, [w], k) == if k > 0 && Permitted(t, w) then Apply(t, w) else t
  {
    assert [w][1..] == [];
    assert ApplyAll(t, [w]) == ApplyAll(Apply(t, w), [w][1..]);
  }

  /** If each write is permitted when its turn comes, all get through that are answered. */
  lemma {:induction false} AllThrough(t: Table, ws: seq<Write>, k: nat)
    requires forall i :: 0 <= i < |ws| ==> Permitted(CutShort(t, ws, i), ws[i])
    ensures Through(t, ws, k) == if k < |ws| then k else |ws|
    ensures Leaves(t, ws, k) == CutShort(t, ws, k)
    decreases |ws|
  {
    if ws != [] && k > 0 {
      assert CutShort(t, ws, 0) == t && Permitted(t, ws[0]);
      var u, rest := Apply(t, ws[0]), ws[1..];
      forall i | 0 <= i < |rest| ensures Permitted(CutShort(u, rest, i), rest[i]) {
        assert ws[..i + 1][1..] == rest[..i];
        assert CutShort(u, rest, i) == CutShort(t, ws, i + 1);
      }
      AllThrough(u, rest, k - 1);
    }
  }
}
