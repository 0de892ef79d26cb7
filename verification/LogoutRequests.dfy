/**
Which session an SP's LogoutRequest ends: this browser's, if the request names it, or else the one
that a SessionIndex was issued for, found without its cookie. A SessionIndex is a keyed hash of
session and SP, taken as injective.
*/
module LogoutRequests {
  import opened Optional
  import opened Logout
  import opened Participants

  /** The SessionIndex of a session for an SP. */
  type Mac = (nat, string) -> string

  ghost predicate Injective(mac: Mac) {
    forall x, sp, y, q :: mac(x, sp) == mac(y, q) ==> x == y && sp == q
  }

  datatype Session = Session(id: nat, userId: string, expiresAt: int)

  /** A signed or unsigned LogoutRequest, its sender known. */
  datatype Request = Request(spId: string, indexes: seq<string>, signed: bool, nameId: string)

  datatype Choice = ThisBrowsers(session: nat) | Another(session: nat) | NoSession

  const MAX_INDEXES := 3

  // ---- By its SessionIndex -----------------------------------------------------------------------

  predicate Matches(r: Row, spId: string, index: string) {
    r.participant.spId == spId && r.participant.sessionIndex == index
  }

  function Matching(rows: Table, spId: string, index: string): (m: Table)
    ensures forall r :: r in m <==> r in rows && Matches(r, spId, index)
  {
    if rows == [] then []
    else Matching(rows[..|rows| - 1], spId, index) + if Matches(rows[|rows| - 1], spId, index) then [rows[|rows| - 1]] else []
  }

  /** The user of the first of two matching rows that has not ended. */
  function UserOf(rows: Table, spId: string, index: string): Option<string> {
    var found := NotEnded(Firsts(Matching(rows, spId, index), 2));
    if found == [] then None else Some(found[0].userId)
  }

  function LiveOf(sessions: seq<Session>, userId: string, now: int): (r: seq<Session>)
    ensures forall s :: s in r <==> s in sessions && s.userId == userId && s.expiresAt > now
  {
    if sessions == [] then []
    else
      var last := sessions[|sessions| - 1];
      LiveOf(sessions[..|sessions| - 1], userId, now) + if last.userId == userId && last.expiresAt > now then [last] else []
  }

  function FindIndex(sessions: seq<Session>, mac: Mac, spId: string, index: string): (r: Option<Session>)
    ensures r.Some? ==> r.value in sessions && mac(r.value.id, spId) == index
    ensures r.None? ==> forall s :: s in sessions ==> mac(s.id, spId) != index
  {
    if sessions == [] then None
    else if mac(sessions[0].id, spId) == index then Some(sessions[0])
    else FindIndex(sessions[1..], mac, spId, index)
  }

  function OfIndex(sessions: seq<Session>, rows: Table, mac: Mac, spId: string, index: string, now: int): Option<Session> {
    var user := UserOf(rows, spId, index);
    if user.None? then None else FindIndex(LiveOf(sessions, user.value, now), mac, spId, index)
  }

  function ByIndexes(sessions: seq<Session>, rows: Table, mac: Mac, spId: string, indexes: seq<string>, now: int): Option<Session> {
    if indexes == [] then None
    else
      var found := OfIndex(sessions, rows, mac, spId, indexes[0], now);
      if found.Some? then found else ByIndexes(sessions, rows, mac, spId, indexes[1..], now)
  }

  function LookedAt(indexes: seq<string>): seq<string> {
    if |indexes| <= MAX_INDEXES then indexes else indexes[..MAX_INDEXES]
  }

  lemma NextIndex(sessions: seq<Session>, rows: Table, mac: Mac, spId: string, indexes: seq<string>, now: int, n: nat)
    requires n < |indexes|
    ensures var found := OfIndex(sessions, rows, mac, spId, indexes[n], now);
      ByIndexes(sessions, rows, mac, spId, indexes[n..], now) ==
        if found.Some? then found else ByIndexes(sessions, rows, mac, spId, indexes[n + 1..], now)
  {
    assert indexes[n..][0] == indexes[n] && indexes[n..][1..] == indexes[n + 1..];
  }

  method SessionByIndex(sessions: seq<Session>, rows: Table, mac: Mac, spId: string, indexes: seq<string>, now: int) returns (r: Option<Session>)
    ensures r == ByIndexes(sessions, rows, mac, spId, LookedAt(indexes), now)
  {
    var few := LookedAt(indexes);
    assert few[0..] == few;
    for n := 0 to |few|
      invariant ByIndexes(sessions, rows, mac, spId, few, now) == ByIndexes(sessions, rows, mac, spId, few[n..], now)
    {
      NextIndex(sessions, rows, mac, spId, few, now, n);
      var userId := UserOf(rows, spId, few[n]);
      if userId.None? { continue; }
      var found := FindIndex(LiveOf(sessions, userId.value, now), mac, spId, few[n]);
      if found.Some? { return found; }
    }
    r := None;
  }

  // ---- What issuance recorded --------------------------------------------------------------------

  /** Every row has the SessionIndex of its session and SP, and the user of its session. */
  ghost predicate AsIssued(sessions: seq<Session>, rows: Table, mac: Mac) {
    && Unique(rows) && Injective(mac)
    && (forall i :: 0 <= i < |rows| ==> rows[i].participant.sessionIndex == mac(rows[i].session, rows[i].participant.spId))
    && (forall i, k :: 0 <= i < |rows| && 0 <= k < |sessions| && sessions[k].id == rows[i].session ==> sessions[k].userId == rows[i].userId)
  }

  /** Session `s` is live, `index` is the one this SP was given for it, and the SP's row has not ended. */
  ghost predicate Names(sessions: seq<Session>, rows: Table, mac: Mac, spId: string, index: string, now: int, s: Session) {
    && s in sessions && s.expiresAt > now && index == mac(s.id, spId)
    && exists i :: 0 <= i < |rows| && IsOf(rows[i], s.id, spId) && rows[i].endedAt.None?
  }

  lemma TellsApart(mac: Mac, x: nat, sp: string, y: nat, q: string)
    requires Injective(mac)
    ensures mac(x, sp) == mac(y, q) ==> x == y && sp == q
  {}

  /** No two rows are of one SessionIndex. */
  lemma {:induction false} MatchingIsOne(rows: Table, mac: Mac, spId: string, index: string)
    requires Unique(rows) && Injective(mac)
    requires forall i :: 0 <= i < |rows| ==> rows[i].participant.sessionIndex == mac(rows[i].session, rows[i].participant.spId)
    ensures |Matching(rows, spId, index)| <= 1
    decreases |rows|
  {
    if rows != [] {
      var n := |rows| - 1;
      MatchingIsOne(rows[..n], mac, spId, index);
      var front := Matching(rows[..n], spId, index);
      forall i | 0 <= i < n ensures !(Matches(rows[i], spId, index) && Matches(rows[n], spId, index)) {
        TellsApart(mac, rows[i].session, rows[i].participant.spId, rows[n].session, rows[n].participant.spId);
      }
      assert Matches(rows[n], spId, index) ==> front == [] by {
        if front != [] { assert front[0] in front; }
      }
    }
  }

  /** A SessionIndex finds a session if and only if it names one, and then that one. */
  lemma OfIndexIff(sessions: seq<Session>, rows: Table, mac: Mac, spId: string, index: string, now: int)
    requires AsIssued(sessions, rows, mac)
    ensures forall s :: OfIndex(sessions, rows, mac, spId, index, now) == Some(s) ==> Names(sessions, rows, mac, spId, index, now, s)
    ensures OfIndex(sessions, rows, mac, spId, index, now).None? ==> forall s :: !Names(sessions, rows, mac, spId, index, now, s)
  {
    MatchingIsOne(rows, mac, spId, index);
    var m := Matching(rows, spId, index);
    assert Firsts(m, 2) == m;
    if m == [] {
      assert forall i :: 0 <= i < |rows| ==> rows[i] in rows && !Matches(rows[i], spId, index);
    } else {
      OneRowIff(sessions, rows, mac, spId, index, now, m[0]);
    }
  }

  lemma OneRowIff(sessions: seq<Session>, rows: Table, mac: Mac, spId: string, index: string, now: int, row: Row)
    requires AsIssued(sessions, rows, mac) && Matching(rows, spId, index) == [row]
    ensures forall s :: OfIndex(sessions, rows, mac, spId, index, now) == Some(s) ==> Names(sessions, rows, mac, spId, index, now, s)
    ensures OfIndex(sessions, rows, mac, spId, index, now).None? ==> forall s :: !Names(sessions, rows, mac, spId, index, now, s)
  {
    var m := Matching(rows, spId, index);
    assert row in m;
    var at :| 0 <= at < |rows| && rows[at] == row;
    assert Firsts(m, 2) == [row];
    assert NotEnded([row]) == if row.endedAt.None? then [row] else [] by { assert [row][..0] == []; }
    var found := OfIndex(sessions, rows, mac, spId, index, now);
    if found.Some? { assert IsOf(rows[at], found.value.id, spId); }
    forall s | Names(sessions, rows, mac, spId, index, now, s) ensures found.Some? {
      var i :| 0 <= i < |rows| && IsOf(rows[i], s.id, spId) && rows[i].endedAt.None?;
      assert rows[i] in m;
      var k :| 0 <= k < |sessions| && sessions[k] == s;
      assert s in LiveOf(sessions, row.userId, now);
    }
  }

  /** Index `i` is the first to name a session, and that is `s`. */
  ghost predicate FirstNamed(sessions: seq<Session>, rows: Table, mac: Mac, spId: string, indexes: seq<string>, now: int, i: nat, s: Session) {
    && i < |indexes| && Names(sessions, rows, mac, spId, indexes[i], now, s)
    && forall k, t :: 0 <= k < i ==> !Names(sessions, rows, mac, spId, indexes[k], now, t)
  }

  lemma FirstNamedNext(sessions: seq<Session>, rows: Table, mac: Mac, spId: string, indexes: seq<string>, now: int, i: nat, s: Session)
    requires indexes != [] && FirstNamed(sessions, rows, mac, spId, indexes[1..], now, i, s)
    requires forall t :: !Names(sessions, rows, mac, spId, indexes[0], now, t)
    ensures FirstNamed(sessions, rows, mac, spId, indexes, now, i + 1, s)
  {
    hide Names;
    forall k, t | 0 <= k < i + 1 ensures !Names(sessions, rows, mac, spId, indexes[k], now, t) {
      if k > 0 { assert indexes[k] == indexes[1..][k - 1]; }
    }
  }

  /** None of these names a session. */
  ghost predicate NoneNamed(sessions: seq<Session>, rows: Table, mac: Mac, spId: string, indexes: seq<string>, now: int) {
    forall i, s :: 0 <= i < |indexes| ==> !Names(sessions, rows, mac, spId, indexes[i], now, s)
  }

  lemma NoneNamedNext(sessions: seq<Session>, rows: Table, mac: Mac, spId: string, indexes: seq<string>, now: int)
    requires indexes != [] && NoneNamed(sessions, rows, mac, spId, indexes[1..], now)
    requires forall t :: !Names(sessions, rows, mac, spId, indexes[0], now, t)
    ensures NoneNamed(sessions, rows, mac, spId, indexes, now)
  {
    hide Names;
    forall k, t | 0 <= k < |indexes| ensures !Names(sessions, rows, mac, spId, indexes[k], now, t) {
      if k > 0 { assert indexes[k] == indexes[1..][k - 1]; }
    }
  }

  /** Of the indexes looked at, the first that names a session decides; with none, none is found. */
  lemma {:induction false} FoundIff(sessions: seq<Session>, rows: Table, mac: Mac, spId: string, indexes: seq<string>, now: int)
    requires AsIssued(sessions, rows, mac)
    ensures var r := ByIndexes(sessions, rows, mac, spId, indexes, now);
      if r.Some? then exists i: nat :: FirstNamed(sessions, rows, mac, spId, indexes, now, i, r.value)
      else NoneNamed(sessions, rows, mac, spId, indexes, now)
    decreases |indexes|
  {
    hide OfIndex, Names, AsIssued;
    if indexes != [] {
      OfIndexIff(sessions, rows, mac, spId, indexes[0], now);
      var found := OfIndex(sessions, rows, mac, spId, indexes[0], now);
      if found.Some? {
        assert FirstNamed(sessions, rows, mac, spId, indexes, now, 0, found.value);
      } else {
        FoundIff(sessions, rows, mac, spId, indexes[1..], now);
        var r := ByIndexes(sessions, rows, mac, spId, indexes[1..], now);
        hide FirstNamed, NoneNamed;
        if r.Some? {
          var i: nat :| FirstNamed(sessions, rows, mac, spId, indexes[1..], now, i, r.value);
          FirstNamedNext(sessions, rows, mac, spId, indexes, now, i, r.value);
        } else {
          NoneNamedNext(sessions, rows, mac, spId, indexes, now);
        }
      }
    }
  }

  // ---- The decision ------------------------------------------------------------------------------

  predicate HasNameId(ps: seq<Participant>, spId: string, nameId: string) {
    exists i :: 0 <= i < |ps| && ps[i].spId == spId && ps[i].nameId == nameId && forall k :: 0 <= k < i ==> ps[k].spId != spId
  }

  /** Does the request name the session of this browser? `listed`: its participants. */
  predicate NamesThis(q: Request, session: nat, listed: seq<Participant>, mac: Mac) {
    || mac(session, q.spId) in q.indexes
    || (q.signed && q.indexes == [] && HasNameId(listed, q.spId, q.nameId))
  }

  /** `listOk`: this browser's participants could be read. */
  function Chosen(q: Request, cookie: Option<nat>, listOk: bool, sessions: seq<Session>, rows: Table, mac: Mac, now: int): Choice {
    if cookie.Some? && NamesThis(q, cookie.value, if listOk then List(rows, cookie.value).participants else [], mac) then ThisBrowsers(cookie.value)
    else
      var found := ByIndexes(sessions, rows, mac, q.spId, LookedAt(q.indexes), now);
      if found.Some? then Another(found.value.id) else NoSession
  }

  method FindMine(ps: seq<Participant>, spId: string) returns (mine: Option<Participant>)
    ensures mine.Some? ==> exists i :: 0 <= i < |ps| && ps[i] == mine.value && ps[i].spId == spId && forall k :: 0 <= k < i ==> ps[k].spId != spId
    ensures mine.None? ==> forall k :: 0 <= k < |ps| ==> ps[k].spId != spId
  {
    for i := 0 to |ps|
      invariant forall k :: 0 <= k < i ==> ps[k].spId != spId
    {
      if ps[i].spId == spId { return Some(ps[i]); }
    }
    mine := None;
  }

  method HandleLogoutRequest(q: Request, cookie: Option<nat>, listOk: bool, sessions: seq<Session>, rows: Table, mac: Mac, now: int)
    returns (choice: Choice)
    ensures choice == Chosen(q, cookie, listOk, sessions, rows, mac, now)
  {
    hide List;
    if cookie.Some? {
      var listed := if listOk then List(rows, cookie.value).participants else [];
      var mine := FindMine(listed, q.spId);
      var byIndex := mac(cookie.value, q.spId) in q.indexes;
      var byNameId := q.signed && |q.indexes| == 0 && mine.Some? && mine.value.nameId == q.nameId;
      assert (mine.Some? && mine.value.nameId == q.nameId) <==> HasNameId(listed, q.spId, q.nameId);
      if byIndex || byNameId { return ThisBrowsers(cookie.value); }
    }
    var found := SessionByIndex(sessions, rows, mac, q.spId, q.indexes, now);
    choice := if found.Some? then Another(found.value.id) else NoSession;
  }

  ghost predicate GivenNameId(rows: Table, x: nat, spId: string, nameId: string) {
    exists i :: 0 <= i < |rows| && IsOf(rows[i], x, spId) && rows[i].participant.nameId == nameId
  }

  /**
   * An SP ends no session but one it was given the SessionIndex of, or (signed, naming none) this
   * browser's, in which it was given that NameID.
   */
  lemma EndsOnlyItsOwn(q: Request, cookie: Option<nat>, listOk: bool, sessions: seq<Session>, rows: Table, mac: Mac, now: int)
    requires AsIssued(sessions, rows, mac)
    ensures var c := Chosen(q, cookie, listOk, sessions, rows, mac, now);
      && (c.Another? ==> mac(c.session, q.spId) in q.indexes && exists i :: 0 <= i < |rows| && IsOf(rows[i], c.session, q.spId) && rows[i].endedAt.None?)
      && (c.ThisBrowsers? ==> cookie == Some(c.session))
      && (c.ThisBrowsers? && mac(c.session, q.spId) !in q.indexes ==> q.signed && q.indexes == [] && GivenNameId(rows, c.session, q.spId, q.nameId))
  {
    var c := Chosen(q, cookie, listOk, sessions, rows, mac, now);
    if c.Another? {
      FoundIff(sessions, rows, mac, q.spId, LookedAt(q.indexes), now);
    } else if c.ThisBrowsers? && mac(c.session, q.spId) !in q.indexes {
      ListedHasRow(rows, c.session, q.spId, q.nameId);
    }
  }

  lemma ListedHasRow(rows: Table, x: nat, spId: string, nameId: string)
    requires HasNameId(List(rows, x).participants, spId, nameId)
    ensures GivenNameId(rows, x, spId, nameId)
  {
    var ps := List(rows, x).participants;
    var i :| 0 <= i < |ps| && ps[i].spId == spId && ps[i].nameId == nameId;
    var all := RowsOf(rows, x);
    var shown := Firsts(NotEnded(Firsts(all, MAX_PARTICIPANTS + 1)), MAX_PARTICIPANTS);
    assert shown[i] in NotEnded(Firsts(all, MAX_PARTICIPANTS + 1)) && shown[i] in Firsts(all, MAX_PARTICIPANTS + 1);
    assert shown[i] in all;
    var k :| 0 <= k < |rows| && rows[k] == shown[i];
  }

  /** The SP was given this NameID in session `x`, and its row has not ended. */
  ghost predicate HasUnended(rows: Table, x: nat, spId: string, nameId: string) {
    exists i :: 0 <= i < |rows| && IsOf(rows[i], x, spId) && rows[i].endedAt.None? && rows[i].participant.nameId == nameId
  }

  lemma {:induction false} FirstOf(ps: seq<Participant>, spId: string, n: nat) returns (i: nat)
    requires n < |ps| && ps[n].spId == spId
    ensures i <= n && ps[i].spId == spId && forall k :: 0 <= k < i ==> ps[k].spId != spId
    decreases n
  {
    if k :| 0 <= k < n && ps[k].spId == spId { i := FirstOf(ps, spId, k); } else { i := n; }
  }

  lemma ListedAll(rows: Table, x: nat)
    requires |RowsOf(rows, x)| <= MAX_PARTICIPANTS
    ensures List(rows, x).participants == ToParticipants(NotEnded(RowsOf(rows, x)))
  {
    hide RowsOf, NotEnded;
  }

  lemma ListedOnly(rows: Table, x: nat, spId: string, nameId: string)
    requires HasNameId(ToParticipants(NotEnded(RowsOf(rows, x))), spId, nameId)
    ensures HasUnended(rows, x, spId, nameId)
  {
    var shown := NotEnded(RowsOf(rows, x));
    var ps := ToParticipants(shown);
    var i :| 0 <= i < |ps| && ps[i].spId == spId && ps[i].nameId == nameId;
    assert shown[i] in shown && shown[i] in RowsOf(rows, x);
    var k :| 0 <= k < |rows| && rows[k] == shown[i];
  }

  lemma ListedToo(rows: Table, x: nat, spId: string, nameId: string)
    requires Unique(rows) && HasUnended(rows, x, spId, nameId)
    ensures HasNameId(ToParticipants(NotEnded(RowsOf(rows, x))), spId, nameId)
  {
    var shown := NotEnded(RowsOf(rows, x));
    var ps := ToParticipants(shown);
    var k :| 0 <= k < |rows| && IsOf(rows[k], x, spId) && rows[k].endedAt.None? && rows[k].participant.nameId == nameId;
    assert rows[k] in RowsOf(rows, x) && rows[k] in shown;
    var n :| 0 <= n < |shown| && shown[n] == rows[k];
    var i := FirstOf(ps, spId, n);
    assert shown[i] in shown && shown[i] in RowsOf(rows, x);
    var j :| 0 <= j < |rows| && rows[j] == shown[i];
    assert j == k;
  }

  lemma ListedExactly(rows: Table, x: nat, spId: string, nameId: string)
    requires Unique(rows) && |RowsOf(rows, x)| <= MAX_PARTICIPANTS
    ensures HasNameId(List(rows, x).participants, spId, nameId) <==> HasUnended(rows, x, spId, nameId)
  {
    hide HasNameId, HasUnended, List, RowsOf, NotEnded;
    ListedAll(rows, x);
    if HasUnended(rows, x, spId, nameId) { ListedToo(rows, x, spId, nameId); }
    if HasNameId(List(rows, x).participants, spId, nameId) { ListedOnly(rows, x, spId, nameId); }
  }

  /**
   * Exactly when this browser's session ends, where its participants can be listed whole: its cookie
   * came, and the request has the index this SP was given for it, or is signed, has no index at all,
   * and names the user as this SP was given it there.
   */
  lemma ThisBrowsersExactly(q: Request, cookie: Option<nat>, sessions: seq<Session>, rows: Table, mac: Mac, now: int, x: nat)
    requires Unique(rows) && |RowsOf(rows, x)| <= MAX_PARTICIPANTS
    ensures Chosen(q, cookie, true, sessions, rows, mac, now) == ThisBrowsers(x) <==>
      cookie == Some(x) && (mac(x, q.spId) in q.indexes || (q.signed && q.indexes == [] && HasUnended(rows, x, q.spId, q.nameId)))
  {
    hide List, ByIndexes, HasNameId;
    ListedExactly(rows, x, q.spId, q.nameId);
  }

  /**
   * And which other session ends: of the first three indexes, the first that names one decides; with none
   * of them naming one, nothing ends. Where this browser's participants cannot be read, only its index does.
   */
  lemma OthersExactly(q: Request, cookie: Option<nat>, listOk: bool, sessions: seq<Session>, rows: Table, mac: Mac, now: int)
    requires AsIssued(sessions, rows, mac)
    ensures var c := Chosen(q, cookie, listOk, sessions, rows, mac, now);
      && (!c.ThisBrowsers? && cookie.Some? ==> mac(cookie.value, q.spId) !in q.indexes)
      && (c.ThisBrowsers? && !listOk ==> mac(c.session, q.spId) in q.indexes)
      && (c.Another? ==> exists i: nat, s :: i < 3 && FirstNamed(sessions, rows, mac, q.spId, q.indexes, now, i, s) && s.id == c.session)
      && (c.NoSession? ==> forall i, s :: 0 <= i < |q.indexes| && i < 3 ==> !Names(sessions, rows, mac, q.spId, q.indexes[i], now, s))
  {
    var few := LookedAt(q.indexes);
    assert forall i :: 0 <= i < |few| ==> few[i] == q.indexes[i];
    FoundIff(sessions, rows, mac, q.spId, few, now);
    hide ByIndexes, Names, List;
    var r := ByIndexes(sessions, rows, mac, q.spId, few, now);
    if r.Some? {
      var i: nat :| FirstNamed(sessions, rows, mac, q.spId, few, now, i, r.value);
      assert FirstNamed(sessions, rows, mac, q.spId, q.indexes, now, i, r.value);
    }
  }

  /** What other SPs were given is of no use: indexes of theirs alone end nothing. */
  lemma OthersIndexesEndNothing(q: Request, cookie: Option<nat>, listOk: bool, sessions: seq<Session>, rows: Table, mac: Mac, now: int)
    requires AsIssued(sessions, rows, mac) && q.indexes != []
    requires forall i :: 0 <= i < |q.indexes| ==> exists y: nat, other: string :: other != q.spId && q.indexes[i] == mac(y, other)
    ensures Chosen(q, cookie, listOk, sessions, rows, mac, now) == NoSession
  {
    EndsOnlyItsOwn(q, cookie, listOk, sessions, rows, mac, now);
    var c := Chosen(q, cookie, listOk, sessions, rows, mac, now);
    var x := if c.NoSession? then 0 else c.session;
    forall i | 0 <= i < |q.indexes| ensures q.indexes[i] != mac(x, q.spId) {
      var y: nat, other: string :| other != q.spId && q.indexes[i] == mac(y, other);
      TellsApart(mac, x, q.spId, y, other);
    }
  }

  /** The one index an SP sends for a live session it was issued to ends that session, with its cookie or without. */
  lemma ItsIndexEndsIt(q: Request, cookie: Option<nat>, listOk: bool, sessions: seq<Session>, rows: Table, mac: Mac, now: int, s: Session)
    requires AsIssued(sessions, rows, mac) && q.indexes == [mac(s.id, q.spId)]
    requires Names(sessions, rows, mac, q.spId, mac(s.id, q.spId), now, s)
    ensures Chosen(q, cookie, listOk, sessions, rows, mac, now) == if cookie == Some(s.id) then ThisBrowsers(s.id) else Another(s.id)
  {
    FoundIff(sessions, rows, mac, q.spId, q.indexes, now);
    EndsOnlyItsOwn(q, cookie, listOk, sessions, rows, mac, now);
    assert q.indexes[0] == mac(s.id, q.spId);
    if cookie.Some? { assert mac(cookie.value, q.spId) in q.indexes <==> cookie.value == s.id; }
  }
}
