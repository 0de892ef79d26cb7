/**
Which SPs got an assertion in which session, and how the end of a session accounts for them: a
Single Logout lists them for its chain of LogoutRequests; any other end reports them in one
`session.ended` event. Between the two stands a marker, set while Single Logout deletes a session
so that the hook on session deletes stays silent.
*/
module Participants {
  import opened Optional
  import opened Logout

  const MAX_PARTICIPANTS := 200
  const ENDING_TTL := 60_000

  /** `session` stands for the session's hashed key. (session, SP) is the UNIQUE key of a row. */
  datatype Row = Row(session: nat, participant: Participant, userId: string, endedAt: Option<int>, expiresAt: int)

  type Table = seq<Row>

  predicate IsOf(r: Row, x: nat, spId: string) { r.session == x && r.participant.spId == spId }

  function Find(t: Table, x: nat, spId: string): (i: int)
    ensures -1 <= i < |t|
    ensures i >= 0 ==> IsOf(t[i], x, spId)
    ensures i < 0 ==> forall j :: 0 <= j < |t| ==> !IsOf(t[j], x, spId)
  {
    if t == [] then -1
    else if IsOf(t[|t| - 1], x, spId) then |t| - 1
    else Find(t[..|t| - 1], x, spId)
  }

  /** Insert a row, or refresh the one there is (its `endedAt` stays). */
  function Recorded(t: Table, x: nat, userId: string, p: Participant, expiresAt: int): Table {
    var i := Find(t, x, p.spId);
    if i < 0 then t + [Row(x, p, userId, None, expiresAt)]
    else t[i := t[i].(userId := userId, participant := p, expiresAt := expiresAt)]
  }

  function Extended(t: Table, x: nat, expiresAt: int): (u: Table)
    ensures |u| == |t| && forall i :: 0 <= i < |t| ==> u[i] == if t[i].session == x then t[i].(expiresAt := expiresAt) else t[i]
  {
    seq(|t|, i requires 0 <= i < |t| => if t[i].session == x then t[i].(expiresAt := expiresAt) else t[i])
  }

  function Ended(t: Table, x: nat, at: int): (u: Table)
    ensures |u| == |t| && forall i :: 0 <= i < |t| ==> u[i] == if t[i].session == x then t[i].(endedAt := Some(at)) else t[i]
  {
    seq(|t|, i requires 0 <= i < |t| => if t[i].session == x then t[i].(endedAt := Some(at)) else t[i])
  }

  function Without(t: Table, x: nat): (u: Table)
    ensures forall r :: r in u <==> r in t && r.session != x
  {
    if t == [] then [] else Without(t[..|t| - 1], x) + if t[|t| - 1].session == x then [] else [t[|t| - 1]]
  }

  function Unexpired(t: Table, now: int): (u: Table)
    ensures forall r :: r in u <==> r in t && r.expiresAt >= now
  {
    if t == [] then [] else Unexpired(t[..|t| - 1], now) + if t[|t| - 1].expiresAt < now then [] else [t[|t| - 1]]
  }

  /** A session's rows, in the order the database has them. */
  function RowsOf(t: Table, x: nat): (u: Table)
    ensures forall r :: r in u <==> r in t && r.session == x
  {
    if t == [] then [] else RowsOf(t[..|t| - 1], x) + if t[|t| - 1].session == x then [t[|t| - 1]] else []
  }

  function NotEnded(t: Table): (u: Table)
    ensures forall r :: r in u <==> r in t && r.endedAt.None?
    ensures (forall r :: r in t ==> r.endedAt.None?) ==> u == t
    ensures |u| <= |t|
  {
    if t == [] then []
    else
      assert t == t[..|t| - 1] + [t[|t| - 1]];
      NotEnded(t[..|t| - 1]) + if t[|t| - 1].endedAt.None? then [t[|t| - 1]] else []
  }

  function Firsts(t: Table, n: nat): Table { if |t| <= n then t else t[..n] }

  function ToParticipants(t: Table): (ps: seq<Participant>)
    ensures |ps| == |t| && forall i :: 0 <= i < |t| ==> ps[i] == t[i].participant
  {
    seq(|t|, i requires 0 <= i < |t| => t[i].participant)
  }

  datatype Listing = Listing(participants: seq<Participant>, truncated: bool)

  /** A session's participants not yet ended, at most 200; 201 rows are read to know of more. */
  function List(t: Table, x: nat): Listing {
    var rows := NotEnded(Firsts(RowsOf(t, x), MAX_PARTICIPANTS + 1));
    Listing(ToParticipants(Firsts(rows, MAX_PARTICIPANTS)), |rows| > MAX_PARTICIPANTS)
  }

  // ---- What a listing says ---------------------------------------------------------------------

  ghost predicate Unique(t: Table) {
    forall i, j :: 0 <= i < j < |t| ==> !(t[i].session == t[j].session && t[i].participant.spId == t[j].participant.spId)
  }

  /** The table holds exactly `issued` for session `x`, none of it ended. */
  ghost predicate Holds(t: Table, x: nat, issued: map<string, Participant>) {
    && (forall i :: 0 <= i < |t| && t[i].session == x ==>
          t[i].participant.spId in issued && issued[t[i].participant.spId] == t[i].participant && t[i].endedAt.None?)
    && (forall sp :: sp in issued ==> exists i :: 0 <= i < |t| && IsOf(t[i], x, sp))
  }

  /** A list of SPs that leaves none of `issued` out, or says that it does. */
  ghost predicate Accounts(l: Listing, issued: map<string, Participant>) {
    && Distinct(l.participants)
    && (forall sp :: sp in issued ==> issued[sp].spId == sp)
    && (forall p :: p in l.participants ==> p.spId in issued && issued[p.spId] == p)
    && (l.truncated <==> |issued| > MAX_PARTICIPANTS)
    && (if l.truncated then |l.participants| == MAX_PARTICIPANTS
        else forall sp :: sp in issued ==> issued[sp] in l.participants)
  }

  lemma {:induction false} RowsOfUnique(t: Table, x: nat)
    requires Unique(t)
    ensures Unique(RowsOf(t, x))
  {
    if t != [] {
      RowsOfUnique(t[..|t| - 1], x);
      forall r | r in RowsOf(t[..|t| - 1], x) ensures r.participant.spId != t[|t| - 1].participant.spId || t[|t| - 1].session != x {
        var i :| 0 <= i < |t| - 1 && t[i] == r;
      }
    }
  }

  /** One row per SP. */
  lemma {:induction false} CountRows(t: Table, x: nat, sps: set<string>)
    requires Unique(t) && forall r :: r in t ==> r.session == x
    requires forall sp :: sp in sps <==> exists r :: r in t && r.participant.spId == sp
    ensures |sps| == |t|
    decreases |t|
  {
    if t == [] {
      assert sps == {};
    } else {
      var last := t[|t| - 1];
      var rest := sps - {last.participant.spId};
      forall sp ensures sp in rest <==> exists r :: r in t[..|t| - 1] && r.participant.spId == sp {
        if sp in rest {
          var r :| r in t && r.participant.spId == sp;
          assert r in t[..|t| - 1];
        }
        if r :| r in t[..|t| - 1] && r.participant.spId == sp {
          var i :| 0 <= i < |t| - 1 && t[i] == r;
        }
      }
      CountRows(t[..|t| - 1], x, rest);
      assert last in t;
    }
  }

  lemma RowsAreIssued(t: Table, x: nat, issued: map<string, Participant>)
    requires Unique(t) && Holds(t, x, issued)
    ensures |RowsOf(t, x)| == |issued|
    ensures forall sp :: sp in issued ==> issued[sp].spId == sp && exists r :: r in RowsOf(t, x) && r.participant == issued[sp]
  {
    var rows := RowsOf(t, x);
    RowsOfUnique(t, x);
    forall sp ensures sp in issued.Keys <==> exists r :: r in rows && r.participant.spId == sp {
      if sp in issued {
        var i :| 0 <= i < |t| && IsOf(t[i], x, sp);
        assert t[i] in rows;
      }
      if r :| r in rows && r.participant.spId == sp {
        var i :| 0 <= i < |t| && t[i] == r;
      }
    }
    CountRows(rows, x, issued.Keys);
    forall sp | sp in issued ensures issued[sp].spId == sp && exists r :: r in rows && r.participant == issued[sp] {
      var i :| 0 <= i < |t| && IsOf(t[i], x, sp);
      assert t[i] in rows;
    }
  }

  lemma RowsAreLive(t: Table, x: nat, issued: map<string, Participant>)
    requires Holds(t, x, issued)
    ensures forall r :: r in RowsOf(t, x) ==> r.session == x && r.endedAt.None? && r.participant.spId in issued && issued[r.participant.spId] == r.participant
  {
    forall r | r in RowsOf(t, x) ensures r.endedAt.None? && r.participant.spId in issued && issued[r.participant.spId] == r.participant {
      var i :| 0 <= i < |t| && t[i] == r;
    }
  }

  lemma FirstsDistinct(rows: Table, x: nat, n: nat)
    requires Unique(rows) && forall i :: 0 <= i < |rows| ==> rows[i].session == x
    ensures Distinct(ToParticipants(Firsts(rows, n)))
  {}

  lemma FirstsComplete(rows: Table, n: nat, r: Row)
    requires r in rows && |rows| <= n
    ensures r.participant in ToParticipants(Firsts(rows, n))
  {
    var i :| 0 <= i < |rows| && rows[i] == r;
    assert ToParticipants(rows)[i] == r.participant;
  }

  /** `rows` are the rows of what was `issued` in a session, all live. */
  ghost predicate AreIssued(rows: Table, x: nat, issued: map<string, Participant>) {
    && Unique(rows) && |rows| == |issued|
    && (forall i :: 0 <= i < |rows| ==>
          rows[i].session == x && rows[i].endedAt.None? && rows[i].participant.spId in issued && issued[rows[i].participant.spId] == rows[i].participant)
    && (forall sp :: sp in issued ==> issued[sp].spId == sp && exists r :: r in rows && r.participant == issued[sp])
  }

  lemma RowsOfIssued(t: Table, x: nat, issued: map<string, Participant>)
    requires Unique(t) && Holds(t, x, issued)
    ensures AreIssued(RowsOf(t, x), x, issued)
  {
    hide RowsOf, Unique;
    RowsOfUnique(t, x);
    RowsAreIssued(t, x, issued);
    RowsAreLive(t, x, issued);
    assert forall i :: 0 <= i < |RowsOf(t, x)| ==> RowsOf(t, x)[i] in RowsOf(t, x);
  }

  function Shown(rows: Table): Listing {
    Listing(ToParticipants(Firsts(rows, MAX_PARTICIPANTS)), |rows| > MAX_PARTICIPANTS)
  }

  lemma ShownAreIssued(rows: Table, x: nat, issued: map<string, Participant>)
    requires AreIssued(rows, x, issued)
    ensures forall p :: p in Shown(rows).participants ==> p.spId in issued && issued[p.spId] == p
  {
    forall i | 0 <= i < |Shown(rows).participants| ensures Shown(rows).participants[i] == rows[i].participant {}
  }

  lemma ShownIsComplete(rows: Table, x: nat, issued: map<string, Participant>)
    requires AreIssued(rows, x, issued) && |rows| <= MAX_PARTICIPANTS
    ensures forall sp :: sp in issued ==> issued[sp] in Shown(rows).participants
  {
    forall sp | sp in issued ensures issued[sp] in Shown(rows).participants {
      var r :| r in rows && r.participant == issued[sp];
      FirstsComplete(rows, MAX_PARTICIPANTS, r);
    }
  }

  lemma ShownAccounts(rows: Table, x: nat, issued: map<string, Participant>)
    requires AreIssued(rows, x, issued)
    ensures Accounts(Shown(rows), issued)
  {
    FirstsDistinct(rows, x, MAX_PARTICIPANTS);
    ShownAreIssued(rows, x, issued);
    if |rows| <= MAX_PARTICIPANTS { ShownIsComplete(rows, x, issued); }
  }

  /** The listing of a session none of whose rows has ended. */
  lemma ListOfLive(t: Table, x: nat, issued: map<string, Participant>)
    requires AreIssued(RowsOf(t, x), x, issued)
    ensures List(t, x) == Shown(RowsOf(t, x))
  {
    var rows := RowsOf(t, x);
    var read := Firsts(rows, MAX_PARTICIPANTS + 1);
    assert NotEnded(read) == read;
    assert Firsts(read, MAX_PARTICIPANTS) == Firsts(rows, MAX_PARTICIPANTS);
  }

  /** Listing a live session names every SP that got an assertion in it, once and as last told, up to 200. */
  lemma ListAccounts(t: Table, x: nat, issued: map<string, Participant>)
    requires Unique(t) && Holds(t, x, issued)
    ensures Accounts(List(t, x), issued)
  {
    RowsOfIssued(t, x, issued);
    ListOfLive(t, x, issued);
    ShownAccounts(RowsOf(t, x), x, issued);
  }

  // ---- What the writes keep --------------------------------------------------------------------

  /**
   * Row `i` of the table is the one that recording is about: it gets the user, the participant and the
   * expiry as told, and ends no sooner than before. If there is none it is added; no other row changes.
   */
  lemma RecordedExactly(t: Table, x: nat, userId: string, p: Participant, expiresAt: int, i: nat)
    requires Unique(t) && i <= |t|
    requires if i < |t| then t[i].session == x && t[i].participant.spId == p.spId
      else forall j :: 0 <= j < |t| && t[j].session == x ==> t[j].participant.spId != p.spId
    ensures var u := Recorded(t, x, userId, p, expiresAt);
      && |u| == (if i < |t| then |t| else |t| + 1)
      && u[i] == Row(x, p, userId, if i < |t| then t[i].endedAt else None, expiresAt)
      && forall j :: 0 <= j < |t| && j != i ==> u[j] == t[j]
  {
    var k := Find(t, x, p.spId);
    assert i < |t| ==> IsOf(t[i], x, p.spId);
    assert k >= 0 ==> k == i;
  }

  lemma RecordKeeps(t: Table, x: nat, userId: string, p: Participant, expiresAt: int, y: nat, issued: map<string, Participant>)
    requires Unique(t) && Holds(t, y, issued)
    ensures Unique(Recorded(t, x, userId, p, expiresAt))
    ensures Holds(Recorded(t, x, userId, p, expiresAt), y, if x == y then issued[p.spId := p] else issued)
  {
    var u := Recorded(t, x, userId, p, expiresAt);
    var issued' := if x == y then issued[p.spId := p] else issued;
    var i := Find(t, x, p.spId);
    var j := if i < 0 then |t| else i;
    assert IsOf(u[j], x, p.spId) && u[j].participant == p;
    forall sp | sp in issued' ensures exists k :: 0 <= k < |u| && IsOf(u[k], y, sp) {
      if sp in issued {
        var k :| 0 <= k < |t| && IsOf(t[k], y, sp);
        assert IsOf(u[k], y, sp);
      } else {
        assert IsOf(u[j], y, sp);
      }
    }
  }

  lemma ExtendKeeps(t: Table, x: nat, expiresAt: int, y: nat, issued: map<string, Participant>)
    requires Unique(t) && Holds(t, y, issued)
    ensures Unique(Extended(t, x, expiresAt)) && Holds(Extended(t, x, expiresAt), y, issued)
  {
    var u := Extended(t, x, expiresAt);
    forall sp | sp in issued ensures exists k :: 0 <= k < |u| && IsOf(u[k], y, sp) {
      var k :| 0 <= k < |t| && IsOf(t[k], y, sp);
      assert IsOf(u[k], y, sp);
    }
  }

  lemma EndKeeps(t: Table, x: nat, at: int, y: nat, issued: map<string, Participant>)
    requires Unique(t) && Holds(t, y, issued) && x != y
    ensures Unique(Ended(t, x, at)) && Holds(Ended(t, x, at), y, issued)
  {
    var u := Ended(t, x, at);
    forall sp | sp in issued ensures exists k :: 0 <= k < |u| && IsOf(u[k], y, sp) {
      var k :| 0 <= k < |t| && IsOf(t[k], y, sp);
      assert IsOf(u[k], y, sp);
    }
  }

  /** Dropping rows of no concern to session `y` leaves what the table holds of it. */
  lemma FewerKeeps(t: Table, u: Table, y: nat, issued: map<string, Participant>)
    requires Holds(t, y, issued)
    requires forall r :: r in u ==> r in t
    requires forall r :: r in t && r.session == y ==> r in u
    ensures Holds(u, y, issued)
  {
    forall i | 0 <= i < |u| && u[i].session == y ensures exists k :: 0 <= k < |t| && t[k] == u[i] { assert u[i] in t; }
    forall sp | sp in issued ensures exists k :: 0 <= k < |u| && IsOf(u[k], y, sp) {
      var k :| 0 <= k < |t| && IsOf(t[k], y, sp);
      assert t[k] in t;
      var j :| 0 <= j < |u| && u[j] == t[k];
    }
  }

  lemma {:induction false} WithoutUnique(t: Table, x: nat)
    requires Unique(t)
    ensures Unique(Without(t, x))
  {
    if t != [] {
      WithoutUnique(t[..|t| - 1], x);
      forall r | r in Without(t[..|t| - 1], x) ensures r.participant.spId != t[|t| - 1].participant.spId || r.session != t[|t| - 1].session {
        var i :| 0 <= i < |t| - 1 && t[i] == r;
      }
    }
  }

  lemma {:induction false} UnexpiredUnique(t: Table, now: int)
    requires Unique(t)
    ensures Unique(Unexpired(t, now))
  {
    if t != [] {
      UnexpiredUnique(t[..|t| - 1], now);
      forall r | r in Unexpired(t[..|t| - 1], now) ensures r.participant.spId != t[|t| - 1].participant.spId || r.session != t[|t| - 1].session {
        var i :| 0 <= i < |t| - 1 && t[i] == r;
      }
    }
  }

  /** Without one of its rows, the table no longer holds what was issued in a session. */
  lemma DroppedIsMissed(t: Table, u: Table, x: nat, issued: map<string, Participant>, r: Row)
    requires Unique(t) && Holds(t, x, issued) && r in t && r.session == x
    requires r !in u && forall q :: q in u ==> q in t
    ensures !Holds(u, x, issued)
  {
    var i :| 0 <= i < |t| && t[i] == r;
    forall k | 0 <= k < |u| ensures !IsOf(u[k], x, r.participant.spId) {
      assert u[k] in u && u[k] in t;
      var j :| 0 <= j < |t| && t[j] == u[k];
    }
  }

  /** The rows of session `x` expire when it does. */
  ghost predicate OnTime(t: Table, x: nat, expiresAt: int) {
    forall r :: r in t && r.session == x ==> r.expiresAt == expiresAt
  }

  lemma RecordedOnTime(t: Table, x: nat, userId: string, p: Participant, expiresAt: int, y: nat, yExpires: int)
    requires OnTime(t, y, yExpires) && (x == y ==> expiresAt == yExpires)
    ensures OnTime(Recorded(t, x, userId, p, expiresAt), y, yExpires)
  {
    var u := Recorded(t, x, userId, p, expiresAt);
    forall r | r in u && r.session == y ensures r.expiresAt == yExpires {
      var i :| 0 <= i < |u| && u[i] == r;
      assert i < |t| ==> t[i] in t;
    }
  }

  lemma ExtendedOnTime(t: Table, x: nat, expiresAt: int, y: nat, yExpires: int)
    requires OnTime(t, y, yExpires)
    ensures OnTime(Extended(t, x, expiresAt), y, if x == y then expiresAt else yExpires)
  {
    var u := Extended(t, x, expiresAt);
    forall r | r in u && r.session == y ensures r.expiresAt == if x == y then expiresAt else yExpires {
      var i :| 0 <= i < |u| && u[i] == r;
      assert t[i] in t;
    }
  }

  lemma EndedOnTime(t: Table, x: nat, at: int, y: nat, yExpires: int)
    requires OnTime(t, y, yExpires)
    ensures OnTime(Ended(t, x, at), y, yExpires)
  {
    var u := Ended(t, x, at);
    forall r | r in u && r.session == y ensures r.expiresAt == yExpires {
      var i :| 0 <= i < |u| && u[i] == r;
      assert t[i] in t;
    }
  }
}
