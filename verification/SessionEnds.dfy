/**
The ends of sessions, over whole runs of one host: sign-ins, assertions, refreshed expiries,
logouts, other ends (which may fail or be cut off at each of their steps), and the sweep, one after another.

`issued` and `ended` are the history of a run: no endpoint reads them.
*/
module SessionEnds {
  import opened Optional
  import Logout
  import LogoutRuns
  import opened Participants

  /** What one end of a session led to: a logout chain, or a `session.ended` event. */
  datatype Account =
    | Told(session: nat, listing: Listing, listed: bool)   // `listed`: the rows could be read
    | Reported(session: nat, listing: Listing)

  datatype State = State(
    now: int,
    live: map<nat, int>,           // sessions and their expiry
    rows: Table,
    ending: map<nat, int>,         // sessions Single Logout is deleting, and since when
    accounts: seq<Account>,
    issued: map<nat, map<string, Logout.Participant>>,
    ended: map<nat, bool>)         // sessions that have ended, and whether before their expiry

  datatype Event =
    | Tick(ms: nat)
    | SignIn(session: nat, expiresAt: int)
    | Issue(session: nat, userId: string, participant: Logout.Participant)
    | Refresh(session: nat, expiresAt: int, extended: bool)   // `extended`: its rows too
    | LogOut(session: nat, listOk: bool, deleteOk: bool, hookRuns: bool, forgetOk: bool)
    | CutOff(session: nat, deleted: bool, hookRuns: bool)   // a logout that gets no further than its marker, or its delete
    | End(session: nat, marked: bool, told: bool)   // how far the hook gets, if it has something to tell
    | Sweep

  predicate Possible(s: State, e: Event) {
    match e
    case SignIn(x, expiresAt) => x !in s.issued && s.now < expiresAt
    case Issue(x, _, _) => x in s.live && s.now < s.live[x]
    case Refresh(x, _, _) => x in s.live && s.now <= s.live[x]
    case LogOut(x, _, _, _, _) => x in s.live
    case CutOff(x, _, _) => x in s.live
    case End(x, _, _) => x in s.live
    case _ => true
  }

  function Pruned(ending: map<nat, int>, now: int): map<nat, int> {
    map x | x in ending && now - ending[x] <= ENDING_TTL :: ending[x]
  }

  /** A marker that still hides the end of session `x` from the hook. */
  predicate Hidden(ending: map<nat, int>, x: nat, now: int) {
    x in ending && now - ending[x] <= ENDING_TTL
  }

  function Listed(s: State, x: nat, listOk: bool): Listing {
    if listOk then List(s.rows, x) else Listing([], true)
  }

  /** What the hook reports: every row read counts towards `truncated`, ended or not. */
  function EndListing(t: Table, x: nat): Listing {
    Listing(List(t, x).participants, |Firsts(RowsOf(t, x), MAX_PARTICIPANTS + 1)| > MAX_PARTICIPANTS)
  }

  function Gone(s: State, x: nat): State
    requires x in s.live
  {
    s.(live := s.live - {x}, ended := s.ended[x := s.now <= s.live[x]])
  }

  function Step(s: State, e: Event): State
    requires Possible(s, e)
  {
    match e
    case Tick(ms) => s.(now := s.now + ms)
    case SignIn(x, expiresAt) => s.(live := s.live[x := expiresAt], issued := s.issued[x := map[]])
    case Issue(x, userId, p) => s.(
        rows := Recorded(s.rows, x, userId, p, s.live[x]),
        issued := if x in s.issued then s.issued[x := s.issued[x][p.spId := p]] else s.issued)
    case Refresh(x, expiresAt, extended) => s.(
        live := s.live[x := expiresAt],
        rows := if extended then Extended(s.rows, x, expiresAt) else s.rows)
    case LogOut(x, listOk, deleteOk, hookRuns, forgetOk) =>
      var ending := Pruned(s.ending, s.now)[x := s.now];
      if !deleteOk then s.(ending := ending - {x})
      else Gone(s, x).(
        ending := if hookRuns then ending - {x} else ending,
        rows := if forgetOk then Without(s.rows, x) else s.rows,
        accounts := s.accounts + [Told(x, Listed(s, x, listOk), listOk)])
    case CutOff(x, deleted, hookRuns) =>
      var ending := Pruned(s.ending, s.now)[x := s.now];
      if !deleted then s.(ending := ending)
      else Gone(s, x).(ending := if hookRuns then ending - {x} else ending)
    case End(x, marked, told) =>
      var l := EndListing(s.rows, x);
      var g := Gone(s, x).(ending := s.ending - {x});
      if Hidden(s.ending, x, s.now) || l.participants == [] || !marked then g
      else g.(rows := Ended(s.rows, x, s.now), accounts := if told then s.accounts + [Reported(x, l)] else s.accounts)
    case Sweep => s.(rows := Unexpired(s.rows, s.now))
  }

  /**
   * When a session ends in time with something to tell, it is not by a logout that is then cut off, and
   * else the hook gets through and no marker hides it; and a sweep takes no row of a session that is still
   * there, as it would where the row was not extended with it.
   */
  ghost predicate Allowed(s: State, e: Event)
    requires Possible(s, e)
  {
    match e
    case End(x, marked, told) =>
      s.now <= s.live[x] && EndListing(s.rows, x).participants != [] ==> marked && told && !Hidden(s.ending, x, s.now)
    case CutOff(x, deleted, _) => deleted && s.now <= s.live[x] ==> EndListing(s.rows, x).participants == []
    case Sweep => forall r :: r in s.rows && r.session in s.live && s.now <= s.live[r.session] ==> s.now <= r.expiresAt
    case _ => true
  }

  // ---- What holds of every run -----------------------------------------------------------------

  ghost predicate AccountOk(s: State, a: Account) {
    && a.session in s.ended && a.session in s.issued
    && (s.ended[a.session] ==> SaysAll(a, s.issued[a.session]))
  }

  ghost predicate HasAccount(s: State, x: nat) {
    exists i :: 0 <= i < |s.accounts| && s.accounts[i].session == x
  }

  ghost predicate Known(s: State) {
    && (forall x :: x in s.live ==> x !in s.ended && x in s.issued)
    && (forall x :: x in s.ended || x in s.ending ==> x in s.issued)
    && (forall r :: r in s.rows ==> r.session in s.issued)
  }

  ghost predicate RowsOk(s: State) {
    && Unique(s.rows)
    && (forall x :: x in s.live && x in s.issued && s.now <= s.live[x] ==> Holds(s.rows, x, s.issued[x]))
  }

  ghost predicate Accounted(s: State) {
    && (forall i :: 0 <= i < |s.accounts| ==> AccountOk(s, s.accounts[i]))
    && (forall i, j :: 0 <= i < j < |s.accounts| ==> s.accounts[i].session != s.accounts[j].session)
    && (forall x :: x in s.ended && x in s.issued && s.ended[x] && s.issued[x] != map[] ==> HasAccount(s, x))
  }

  ghost predicate Inv(s: State) { Known(s) && RowsOk(s) && Accounted(s) }

  /** The accounts given stay as they are when only live sessions change. */
  lemma AccountsStay(s: State, s': State)
    requires Inv(s) && s'.accounts == s.accounts && s'.ended == s.ended
    requires forall x :: x in s.issued && x !in s.live ==> x in s'.issued && s'.issued[x] == s.issued[x]
    requires forall x :: x in s.ended ==> x !in s.live
    ensures Accounted(s')
  {
    forall i | 0 <= i < |s'.accounts| ensures AccountOk(s', s'.accounts[i]) { assert AccountOk(s, s.accounts[i]); }
    forall x | x in s'.ended && x in s'.issued && s'.ended[x] && s'.issued[x] != map[] ensures HasAccount(s', x) {
      assert HasAccount(s, x);
      var i :| 0 <= i < |s.accounts| && s.accounts[i].session == x;
      assert s'.accounts[i].session == x;
    }
  }

  lemma SignInKeeps(s: State, e: Event)
    requires Inv(s) && Possible(s, e) && e.SignIn?
    ensures Inv(Step(s, e))
  {
    AccountsStay(s, Step(s, e));
    forall i | 0 <= i < |s.rows| ensures s.rows[i].session != e.session { assert s.rows[i] in s.rows; }
  }

  lemma IssueKeeps(s: State, e: Event)
    requires Inv(s) && Possible(s, e) && e.Issue?
    ensures Inv(Step(s, e))
  {
    var s' := Step(s, e);
    AccountsStay(s, s');
    RecordKeeps(s.rows, e.session, e.userId, e.participant, s.live[e.session], e.session, s.issued[e.session]);
    forall x | x in s'.live && s'.now <= s'.live[x] ensures Holds(s'.rows, x, s'.issued[x]) {
      RecordKeeps(s.rows, e.session, e.userId, e.participant, s.live[e.session], x, s.issued[x]);
    }
  }

  lemma RefreshKeeps(s: State, e: Event)
    requires Inv(s) && Possible(s, e) && e.Refresh?
    ensures Inv(Step(s, e))
  {
    var s' := Step(s, e);
    AccountsStay(s, s');
    ExtendKeeps(s.rows, e.session, e.expiresAt, e.session, s.issued[e.session]);
    forall x | x in s'.live && s'.now <= s'.live[x] ensures Holds(s'.rows, x, s'.issued[x]) {
      ExtendKeeps(s.rows, e.session, e.expiresAt, x, s.issued[x]);
    }
    forall r | r in s'.rows ensures r.session in s'.issued {
      var i :| 0 <= i < |s'.rows| && s'.rows[i] == r;
      assert s.rows[i] in s.rows && s'.rows[i].session == s.rows[i].session;
    }
  }

  lemma SweepKeeps(s: State)
    requires Inv(s) && Allowed(s, Sweep)
    ensures Inv(Step(s, Sweep))
  {
    var s' := Step(s, Sweep);
    AccountsStay(s, s');
    UnexpiredUnique(s.rows, s.now);
    forall x | x in s'.live && s'.now <= s'.live[x] ensures Holds(s'.rows, x, s'.issued[x]) {
      forall r | r in s.rows && r.session == x ensures r in s'.rows {
        assert s.now <= r.expiresAt;
      }
      FewerKeeps(s.rows, s'.rows, x, s.issued[x]);
    }
  }

  /** One more account, of a session that has just ended. */
  lemma AccountAdded(s: State, s': State, a: Account)
    requires Inv(s) && a.session in s.live && s'.issued == s.issued && s'.accounts == s.accounts + [a]
    requires s'.ended == s.ended[a.session := s.now <= s.live[a.session]] && AccountOk(s', a)
    ensures Accounted(s')
  {
    forall i | 0 <= i < |s'.accounts| ensures AccountOk(s', s'.accounts[i]) {
      if i < |s.accounts| { assert AccountOk(s, s.accounts[i]); }
    }
    forall x | x in s'.ended && s'.ended[x] && s'.issued[x] != map[] ensures HasAccount(s', x) {
      if x == a.session { assert s'.accounts[|s.accounts|].session == x; }
      else {
        assert HasAccount(s, x);
        var i :| 0 <= i < |s.accounts| && s.accounts[i].session == x;
        assert s'.accounts[i].session == x;
      }
    }
    forall i | 0 <= i < |s.accounts| ensures s.accounts[i].session != a.session { assert AccountOk(s, s.accounts[i]); }
  }

  lemma LogOutKeeps(s: State, e: Event)
    requires Inv(s) && Possible(s, e) && e.LogOut?
    ensures Inv(Step(s, e))
  {
    var x := e.session;
    var s' := Step(s, e);
    if e.deleteOk {
      if s.now <= s.live[x] && e.listOk { ListAccounts(s.rows, x, s.issued[x]); }
      AccountAdded(s, s', Told(x, Listed(s, x, e.listOk), e.listOk));
      WithoutUnique(s.rows, x);
      forall y | y in s'.live && s'.now <= s'.live[y] ensures Holds(s'.rows, y, s'.issued[y]) {
        if e.forgetOk { FewerKeeps(s.rows, s'.rows, y, s.issued[y]); }
      }
    } else {
      AccountsStay(s, s');
    }
  }

  /** The hook's report of a session none of whose rows has ended. */
  lemma EndAccounts(t: Table, x: nat, issued: map<string, Logout.Participant>)
    requires Unique(t) && Holds(t, x, issued)
    ensures EndListing(t, x) == List(t, x) && Participants.Accounts(List(t, x), issued)
    ensures EndListing(t, x).participants == [] <==> issued == map[]
  {
    ListAccounts(t, x, issued);
    RowsOfIssued(t, x, issued);
    ListOfLive(t, x, issued);
  }

  /** The hook gets through, and no marker hides the end. */
  predicate Tells(s: State, e: Event)
    requires e.End?
  {
    e.marked && e.told && !Hidden(s.ending, e.session, s.now)
  }

  lemma EndIs(s: State, e: Event)
    requires Known(s) && Possible(s, e) && e.End?
    ensures var s' := Step(s, e); var l := EndListing(s.rows, e.session);
      && s'.now == s.now && s'.issued == s.issued && s'.live == s.live - {e.session} && s'.ending == s.ending - {e.session}
      && s'.ended == s.ended[e.session := s.now <= s.live[e.session]]
      && (s'.rows == s.rows || s'.rows == Ended(s.rows, e.session, s.now))
      && s'.accounts == if l.participants == [] || !Tells(s, e) then s.accounts else s.accounts + [Reported(e.session, l)]
  {
    hide EndListing;
  }

  lemma EndAccounted(s: State, s': State, e: Event, l: Listing)
    requires Inv(s) && Possible(s, e) && e.End? && s'.issued == s.issued && s'.ended == s.ended[e.session := s.now <= s.live[e.session]]
    requires s.now <= s.live[e.session] ==> Participants.Accounts(l, s.issued[e.session]) && (l.participants == [] <==> s.issued[e.session] == map[])
    requires s.now <= s.live[e.session] && l.participants != [] ==> Tells(s, e)
    requires s'.accounts == if l.participants == [] || !Tells(s, e) then s.accounts else s.accounts + [Reported(e.session, l)]
    ensures Accounted(s')
  {
    if l.participants == [] || !Tells(s, e) {
      NothingToTell(s, s', e.session);
    } else {
      AccountAdded(s, s', Reported(e.session, l));
    }
  }

  lemma EndKeepsAll(s: State, e: Event)
    requires Inv(s) && Possible(s, e) && e.End? && Allowed(s, e)
    ensures Inv(Step(s, e))
  {
    hide EndListing, List, Step, Accounted, Hidden;
    EndIs(s, e);
    if s.now <= s.live[e.session] { EndAccounts(s.rows, e.session, s.issued[e.session]); }
    EndKeepsRows(s, e.session);
    EndAccounted(s, Step(s, e), e, EndListing(s.rows, e.session));
  }

  lemma NothingToTell(s: State, s': State, x: nat)
    requires Inv(s) && x in s.live && s'.issued == s.issued && s'.accounts == s.accounts
    requires s'.ended == s.ended[x := s.now <= s.live[x]]
    requires s.now <= s.live[x] ==> s.issued[x] == map[]
    ensures Accounted(s')
  {
    forall i | 0 <= i < |s'.accounts| ensures AccountOk(s', s'.accounts[i]) { assert AccountOk(s, s.accounts[i]); }
    forall y | y in s'.ended && s'.ended[y] && s'.issued[y] != map[] ensures HasAccount(s', y) {
      assert HasAccount(s, y);
      var i :| 0 <= i < |s.accounts| && s.accounts[i].session == y;
      assert s'.accounts[i].session == y;
    }
  }

  lemma EndKeepsRows(s: State, x: nat)
    requires Inv(s) && x in s.live
    ensures var t := Ended(s.rows, x, s.now);
      && Unique(t) && (forall r :: r in t ==> r.session in s.issued)
      && (forall y :: y in s.live && y != x && s.now <= s.live[y] ==> Holds(t, y, s.issued[y]))
  {
    var t := Ended(s.rows, x, s.now);
    forall y | y in s.live && y != x && s.now <= s.live[y] ensures Holds(t, y, s.issued[y]) {
      EndKeeps(s.rows, x, s.now, y, s.issued[y]);
    }
    forall r | r in t ensures r.session in s.issued {
      var i :| 0 <= i < |t| && t[i] == r;
      assert s.rows[i] in s.rows;
    }
  }

  lemma CutOffIs(s: State, e: Event)
    requires Possible(s, e) && e.CutOff?
    ensures var s' := Step(s, e);
      && s'.now == s.now && s'.issued == s.issued && s'.rows == s.rows && s'.accounts == s.accounts
      && s'.live == (if e.deleted then s.live - {e.session} else s.live)
      && s'.ended == (if e.deleted then s.ended[e.session := s.now <= s.live[e.session]] else s.ended)
      && (forall x :: x in s'.ending ==> x == e.session || x in s.ending)
  {}

  lemma CutOffKeeps(s: State, e: Event)
    requires Inv(s) && Possible(s, e) && e.CutOff? && Allowed(s, e)
    ensures Inv(Step(s, e))
  {
    CutOffIs(s, e);
    hide Step, EndListing, List, Accounted, Holds, Unique;
    if !e.deleted {
      AccountsStay(s, Step(s, e));
    } else {
      if s.now <= s.live[e.session] { EndAccounts(s.rows, e.session, s.issued[e.session]); }
      NothingToTell(s, Step(s, e), e.session);
    }
  }

  lemma StepKeeps(s: State, e: Event)
    requires Inv(s) && Possible(s, e) && Allowed(s, e)
    ensures Inv(Step(s, e))
  {
    match e {
      case SignIn(_, _) => SignInKeeps(s, e);
      case Issue(_, _, _) => IssueKeeps(s, e);
      case Refresh(_, _, _) => RefreshKeeps(s, e);
      case LogOut(_, _, _, _, _) => LogOutKeeps(s, e);
      case CutOff(_, _, _) => CutOffKeeps(s, e);
      case End(_, _, _) => EndKeepsAll(s, e);
      case Sweep => SweepKeeps(s);
      case Tick(_) => AccountsStay(s, Step(s, e));
    }
  }

  ghost predicate IsRun(run: seq<State>, es: seq<Event>) {
    && |run| == |es| + 1
    && (exists now :: run[0] == State(now, map[], [], map[], [], map[], map[]))
    && forall i :: 0 <= i < |es| ==> Possible(run[i], es[i]) && run[i + 1] == Step(run[i], es[i])
  }

  ghost predicate Guarded(run: seq<State>, es: seq<Event>)
    requires IsRun(run, es)
  {
    forall i :: 0 <= i < |es| ==> Allowed(run[i], es[i])
  }

  lemma {:induction false} RunKeeps(run: seq<State>, es: seq<Event>, i: nat)
    requires IsRun(run, es) && Guarded(run, es) && i <= |es|
    ensures Inv(run[i])
  {
    if i > 0 {
      RunKeeps(run, es, i - 1);
      StepKeeps(run[i - 1], es[i - 1]);
    }
  }

  ghost predicate OnlyAccount(s: State, x: nat, i: int) {
    0 <= i < |s.accounts| && s.accounts[i].session == x && forall j :: 0 <= j < |s.accounts| && s.accounts[j].session == x ==> j == i
  }

  ghost predicate SaysAll(a: Account, issued: map<string, Logout.Participant>) {
    if a.Told? && !a.listed then a.listing == Listing([], true) else Participants.Accounts(a.listing, issued)
  }

  /**
   * Over any guarded run: every session that ended before its expiry, and in which an SP got an
   * assertion, is accounted for exactly once: in one logout chain or in one `session.ended` event, whatever logouts of it
   * failed before. The account names exactly the SPs that got an assertion, each as it was last
   * told; past 200 it names 200 and says so. Only when the rows could not be read does the chain
   * name nobody, and then it says so too.
   */
  lemma AccountedOnce(run: seq<State>, es: seq<Event>, x: nat)
    requires IsRun(run, es) && Guarded(run, es)
    requires var s := run[|es|]; x in s.ended && s.ended[x] && x in s.issued && s.issued[x] != map[]
    ensures var s := run[|es|]; exists i :: OnlyAccount(s, x, i) && SaysAll(s.accounts[i], s.issued[x])
  {
    RunKeeps(run, es, |es|);
    var s := run[|es|];
    assert HasAccount(s, x);
    var i :| 0 <= i < |s.accounts| && s.accounts[i].session == x;
    assert AccountOk(s, s.accounts[i]);
    assert OnlyAccount(s, x, i);
  }

  /** What is told is told of sessions that have ended. */
  ghost predicate ToldOfEnded(s: State) {
    Known(s) && forall i :: 0 <= i < |s.accounts| ==> s.accounts[i].session in s.ended
  }

  lemma RowsStayKnown(s: State, e: Event)
    requires Known(s) && Possible(s, e)
    ensures forall r :: r in Step(s, e).rows ==> r.session in Step(s, e).issued
  {
    hide EndListing, Listed, Pruned;
    var s' := Step(s, e);
    forall r | r in s'.rows ensures r.session in s'.issued {
      var i :| 0 <= i < |s'.rows| && s'.rows[i] == r;
      assert e.Refresh? || e.End? ==> s.rows[i] in s.rows;
    }
  }

  lemma ToldOfEndedOn(s: State, e: Event)
    requires ToldOfEnded(s) && Possible(s, e)
    ensures ToldOfEnded(Step(s, e))
  {
    hide EndListing, Listed;
    RowsStayKnown(s, e);
  }

  lemma {:induction false} AlwaysOfEnded(run: seq<State>, es: seq<Event>, i: nat)
    requires IsRun(run, es) && i <= |es|
    ensures ToldOfEnded(run[i])
  {
    if i > 0 {
      AlwaysOfEnded(run, es, i - 1);
      ToldOfEndedOn(run[i - 1], es[i - 1]);
    }
  }

  /** Nothing is told of a session that has not ended. */
  lemma LiveSessionsAreSilent(run: seq<State>, es: seq<Event>, x: nat)
    requires IsRun(run, es) && x in run[|es|].live
    ensures !HasAccount(run[|es|], x)
  {
    AlwaysOfEnded(run, es, |es|);
  }

  lemma EndTells(s: State, x: nat, l: Listing)
    requires x in s.live && l == EndListing(s.rows, x) && l.participants != []
    ensures Step(s, End(x, true, true)).accounts == if Hidden(s.ending, x, s.now) then s.accounts else s.accounts + [Reported(x, l)]
  {}

  lemma EndReports(s: State, x: nat)
    requires Known(s) && RowsOk(s) && x in s.live && s.now <= s.live[x] && x in s.issued && s.issued[x] != map[]
    ensures Step(s, End(x, true, true)).accounts == if Hidden(s.ending, x, s.now) then s.accounts else s.accounts + [Reported(x, List(s.rows, x))]
  {
    hide List, EndListing, Step, Known, Hidden;
    EndAccounts(s.rows, x, s.issued[x]);
    EndTells(s, x, EndListing(s.rows, x));
  }

  /** The last logout of session `x` tried before moment `n` is event `k`, and was cut off at its marker. */
  ghost predicate CutOffBy(run: seq<State>, es: seq<Event>, n: nat, x: nat, k: nat)
    requires |run| == |es| + 1 && n <= |es|
  {
    && k < n && es[k].CutOff? && es[k].session == x && !es[k].deleted
    && (forall j :: k < j < n ==> !((es[j].LogOut? || es[j].CutOff?) && es[j].session == x))
  }

  lemma MarkStep(s: State, e: Event, x: nat)
    requires Possible(s, e) && x in Step(s, e).live
    ensures var s' := Step(s, e);
      s.now <= s'.now
      && (if e.CutOff? && e.session == x then x in s'.ending && s'.ending[x] == s.now && !e.deleted
          else if e.LogOut? && e.session == x then x !in s'.ending
          else (x in s'.ending ==> x in s.ending && s'.ending[x] == s.ending[x]) && (x in s.ending && s.now - s.ending[x] <= 60_000 ==> x in s'.ending))
  {}

  /** A session that has not begun is not there, and has no marker. */
  ghost predicate Unbegun(s: State, x: nat) { x !in s.issued && x !in s.ending && x !in s.live }

  lemma UnbegunStep(s: State, e: Event, x: nat)
    requires Possible(s, e) && (x in s.issued || Unbegun(s, x))
    ensures x in Step(s, e).issued || Unbegun(Step(s, e), x)
    ensures x in s.issued ==> x in Step(s, e).issued
    ensures x !in s.live && x in Step(s, e).live ==> x !in s.issued && x !in Step(s, e).ending && !e.CutOff?
  {
    hide EndListing, Listed, Recorded, Without;
  }

  lemma {:induction false} BegunIsKnown(run: seq<State>, es: seq<Event>, n: nat, x: nat)
    requires IsRun(run, es) && n <= |es|
    ensures x in run[n].issued || Unbegun(run[n], x)
  {
    hide Step;
    if n > 0 {
      BegunIsKnown(run, es, n - 1, x);
      UnbegunStep(run[n - 1], es[n - 1], x);
    }
  }

  /** A marker that a live session has was set by the last logout of it, cut off there; and is there for a minute. */
  lemma {:induction false} MarkedExactly(run: seq<State>, es: seq<Event>, n: nat, x: nat)
    requires IsRun(run, es) && n <= |es| && x in run[n].live
    ensures x in run[n].ending ==> exists k: nat :: CutOffBy(run, es, n, x, k) && run[n].ending[x] == run[k].now
    ensures forall k: nat :: CutOffBy(run, es, n, x, k) && run[n].now - run[k].now <= 60_000 ==> x in run[n].ending && run[n].ending[x] == run[k].now
    decreases n
  {
    hide Step, Possible;
    if n > 0 {
      var s, e := run[n - 1], es[n - 1];
      assert run[n] == Step(s, e);
      if x in s.live {
        MarkedExactly(run, es, n - 1, x);
        MarkedNext(run, es, n - 1, x);
      } else {
        BegunIsKnown(run, es, n - 1, x);
        UnbegunStep(s, e, x);
        forall k: nat | k < n - 1 && es[k].CutOff? && es[k].session == x ensures false { CutOffWasKnown(run, es, k, n - 1, x); }
      }
    }
  }

  lemma MarkedNext(run: seq<State>, es: seq<Event>, n: nat, x: nat)
    requires IsRun(run, es) && n < |es| && x in run[n].live && x in run[n + 1].live
    requires x in run[n].ending ==> exists k: nat :: CutOffBy(run, es, n, x, k) && run[n].ending[x] == run[k].now
    requires forall k: nat :: CutOffBy(run, es, n, x, k) && run[n].now - run[k].now <= 60_000 ==> x in run[n].ending && run[n].ending[x] == run[k].now
    ensures var m := n + 1; x in run[m].ending ==> exists k: nat :: CutOffBy(run, es, m, x, k) && run[m].ending[x] == run[k].now
    ensures forall k: nat :: CutOffBy(run, es, n + 1, x, k) && run[n + 1].now - run[k].now <= 60_000 ==> x in run[n + 1].ending && run[n + 1].ending[x] == run[k].now
  {
    var e, m := es[n], n + 1;
    assert run[m] == Step(run[n], e);
    MarkStep(run[n], e, x);
    hide Step, Possible;
    if e.CutOff? && e.session == x {
      assert CutOffBy(run, es, m, x, n);
    } else if !(e.LogOut? && e.session == x) {
      assert forall k: nat :: CutOffBy(run, es, m, x, k) <==> CutOffBy(run, es, n, x, k);
    }
  }

  lemma CutOffWasKnown(run: seq<State>, es: seq<Event>, k: nat, n: nat, x: nat)
    requires IsRun(run, es) && k <= n <= |es| && k < |es| && es[k].CutOff? && es[k].session == x
    ensures x in run[n].issued
  {
    BegunIsKnown(run, es, k, x);
    assert Possible(run[k], es[k]);
    KnownStays(run, es, k, n, x);
  }

  lemma {:induction false} KnownStays(run: seq<State>, es: seq<Event>, k: nat, n: nat, x: nat)
    requires IsRun(run, es) && k <= n <= |es| && x in run[k].issued
    ensures x in run[n].issued
    decreases n
  {
    hide Step;
    if k < n {
      KnownStays(run, es, k, n - 1, x);
      UnbegunStep(run[n - 1], es[n - 1], x);
    }
  }

  /**
   * What a marker hides: where a live, unexpired session in which an SP got an assertion ends without
   * Single Logout and the hook gets through, that is reported unless the last logout of it was cut off at
   * its marker, within the last minute; and then it is not.
   */
  lemma MarkerHidesExactly(run: seq<State>, es: seq<Event>, x: nat)
    requires IsRun(run, es) && Guarded(run, es) && x in run[|es|].live
    requires var s := run[|es|]; s.now <= s.live[x] && x in s.issued && s.issued[x] != map[]
    ensures var s, hidden := run[|es|], exists k: nat :: CutOffBy(run, es, |es|, x, k) && run[|es|].now - run[k].now <= 60_000;
      Step(s, End(x, true, true)).accounts == (if hidden then s.accounts else s.accounts + [Reported(x, List(s.rows, x))])
  {
    RunKeeps(run, es, |es|);
    EndReports(run[|es|], x);
    MarkedExactly(run, es, |es|, x);
    hide Step, CutOffBy, Inv;
  }

  // ---- Exactly -----------------------------------------------------------------------------------

  /** Each session that ended in time is accounted for, once; and of each that is there, all rows are. */
  ghost predicate Books(s: State) {
    && (forall x :: x in s.ended && s.ended[x] && x in s.issued && s.issued[x] != map[] ==> IsAccounted(s, x))
    && (forall x :: x in s.live && s.now <= s.live[x] && x in s.issued ==> Holds(s.rows, x, s.issued[x]))
  }

  ghost predicate IsAccounted(s: State, x: nat)
    requires x in s.issued
  {
    exists i :: OnlyAccount(s, x, i) && SaysAll(s.accounts[i], s.issued[x])
  }

  lemma InvBooks(s: State)
    requires Inv(s)
    ensures Books(s)
  {
    forall x | x in s.ended && s.ended[x] && x in s.issued && s.issued[x] != map[] ensures IsAccounted(s, x) {
      assert HasAccount(s, x);
      var i :| 0 <= i < |s.accounts| && s.accounts[i].session == x;
      assert AccountOk(s, s.accounts[i]);
      assert OnlyAccount(s, x, i);
    }
  }

  lemma UntoldEnds(s: State, e: Event)
    requires Possible(s, e) && (e.End? || e.CutOff?) && !Allowed(s, e)
    ensures var s' := Step(s, e); s'.accounts == s.accounts && s'.issued == s.issued && s'.ended == s.ended[e.session := true]
    ensures s.now <= s.live[e.session] && EndListing(s.rows, e.session).participants != []
  {
    hide EndListing;
  }

  lemma UntoldIsMissed(s: State, e: Event)
    requires Inv(s) && Possible(s, e) && (e.End? || e.CutOff?) && !Allowed(s, e)
    ensures !Books(Step(s, e))
  {
    hide EndListing, List, Step, Allowed;
    var x := e.session;
    var s' := Step(s, e);
    UntoldEnds(s, e);
    EndAccounts(s.rows, x, s.issued[x]);
    forall i | 0 <= i < |s'.accounts| ensures s'.accounts[i].session != x { assert AccountOk(s, s.accounts[i]); }
    assert !IsAccounted(s', x);
  }

  lemma SweptIsMissed(s: State)
    requires Inv(s) && !Allowed(s, Sweep)
    ensures !Books(Step(s, Sweep))
  {
    var s' := Step(s, Sweep);
    var r :| r in s.rows && r.session in s.live && s.now <= s.live[r.session] && s.now > r.expiresAt;
    DroppedIsMissed(s.rows, s'.rows, r.session, s.issued[r.session], r);
  }

  lemma StartInv(run: seq<State>, es: seq<Event>)
    requires IsRun(run, es)
    ensures Inv(run[0])
  {}

  lemma UnallowedIsMissed(s: State, e: Event)
    requires Inv(s) && Possible(s, e)
    ensures !Allowed(s, e) ==> !Books(Step(s, e))
  {
    hide Books, Inv, Step;
    if !Allowed(s, e) {
      if e.Sweep? { SweptIsMissed(s); } else { UntoldIsMissed(s, e); }
    }
  }

  lemma {:induction false} BooksAllow(run: seq<State>, es: seq<Event>, n: nat)
    requires IsRun(run, es) && n <= |es| && forall k :: 0 <= k <= |es| ==> Books(run[k])
    ensures Inv(run[n]) && (n < |es| ==> Allowed(run[n], es[n]))
  {
    hide Inv, Books, Allowed, Step, Possible;
    if n > 0 {
      BooksAllow(run, es, n - 1);
      StepKeeps(run[n - 1], es[n - 1]);
    } else {
      StartInv(run, es);
    }
    if n < |es| {
      assert run[n + 1] == Step(run[n], es[n]) && Books(run[n + 1]);
      UnallowedIsMissed(run[n], es[n]);
    }
  }

  /**
   * Exactly: over any run each session that ended in time is accounted for once, and the rows of each
   * that is there are complete, at every moment, if and only if wherever there was something to tell in
   * time no logout was cut off after its delete, and the hook got through with no marker in its way; and no
   * sweep took a row of a session that was still there.
   */
  lemma AccountedExactly(run: seq<State>, es: seq<Event>)
    requires IsRun(run, es)
    ensures (forall n :: 0 <= n <= |es| ==> Books(run[n])) <==> Guarded(run, es)
  {
    if Guarded(run, es) {
      forall n | 0 <= n <= |es| ensures Books(run[n]) {
        RunKeeps(run, es, n);
        InvBooks(run[n]);
      }
    }
    if forall n :: 0 <= n <= |es| ==> Books(run[n]) {
      forall n | 0 <= n < |es| ensures Allowed(run[n], es[n]) { BooksAllow(run, es, n); }
    }
  }

  /** Nothing fails but logouts, and none is cut off: rows are extended with their session, and the hook gets through. */
  predicate HooksWork(e: Event) {
    !e.CutOff? && (e.Refresh? ==> e.extended) && (e.End? ==> e.marked && e.told)
  }

  ghost predicate Timely(s: State) {
    Known(s) && forall x :: x in s.live ==> OnTime(s.rows, x, s.live[x]) && x !in s.ending
  }

  lemma TimelyOn(s: State, e: Event)
    requires Timely(s) && ToldOfEnded(s) && Possible(s, e) && HooksWork(e)
    ensures forall x :: x in Step(s, e).live ==> OnTime(Step(s, e).rows, x, Step(s, e).live[x]) && x !in Step(s, e).ending
  {
    var s' := Step(s, e);
    forall x | x in s'.live ensures OnTime(s'.rows, x, s'.live[x]) {
      match e {
        case Issue(y, userId, p) => RecordedOnTime(s.rows, y, userId, p, s.live[y], x, s.live[x]);
        case Refresh(y, expiresAt, _) => if x in s.live { ExtendedOnTime(s.rows, y, expiresAt, x, s.live[x]); }
        case End(y, _, _) => EndedOnTime(s.rows, y, s.now, x, s.live[x]);
        case SignIn(y, _) => assert x != y ==> OnTime(s.rows, x, s.live[x]);
        case _ => assert OnTime(s.rows, x, s.live[x]);
      }
    }
  }

  lemma {:induction false} TimelyRuns(run: seq<State>, es: seq<Event>, n: nat)
    requires IsRun(run, es) && n <= |es| && forall i :: 0 <= i < |es| ==> HooksWork(es[i])
    ensures Timely(run[n])
  {
    AlwaysOfEnded(run, es, n);
    if n > 0 {
      TimelyRuns(run, es, n - 1);
      AlwaysOfEnded(run, es, n - 1);
      TimelyOn(run[n - 1], es[n - 1]);
    }
  }

  /** So nothing is missed over any run whose hooks work, whatever logouts fail. */
  lemma WorkingHooksAreEnough(run: seq<State>, es: seq<Event>)
    requires IsRun(run, es) && forall i :: 0 <= i < |es| ==> HooksWork(es[i])
    ensures Guarded(run, es)
  {
    forall i | 0 <= i < |es| ensures Allowed(run[i], es[i]) { TimelyRuns(run, es, i); }
  }

  // ---- What the originator of a logout is told ------------------------------------------------------

  /** The rows of the session a logout ends are read whole, as they were last told. */
  lemma LogOutLists(run: seq<State>, es: seq<Event>, k: nat)
    requires IsRun(run, es) && Guarded(run, es) && k < |es| && es[k].LogOut? && es[k].listOk && run[k].now <= run[k].live[es[k].session]
    ensures var x := es[k].session; x in run[k].issued && Participants.Accounts(Listed(run[k], x, true), run[k].issued[x])
  {
    RunKeeps(run, es, k);
    var s, x := run[k], es[k].session;
    ListAccounts(s.rows, x, s.issued[x]);
  }

  /** Everyone issued to but the originator, exactly when that is everyone told. */
  lemma ToldIsIssued(chains: seq<Logout.State>, hops: seq<Logout.Event>, c: nat, l: Listing, issued: map<string, Logout.Participant>, origin: string)
    requires LogoutRuns.IsRun(chains, hops) && Participants.Accounts(l, issued) && !l.truncated
    ensures (forall p :: p in l.participants && p.spId != origin ==> LogoutRuns.RepliedWell(chains, hops, c, p.spId))
      <==> forall sp :: sp in issued && sp != origin ==> LogoutRuns.RepliedWell(chains, hops, c, sp)
  {
    hide LogoutRuns.RepliedWell;
    if forall p :: p in l.participants && p.spId != origin ==> LogoutRuns.RepliedWell(chains, hops, c, p.spId) {
      forall sp | sp in issued && sp != origin ensures LogoutRuns.RepliedWell(chains, hops, c, sp) {
        assert issued[sp] in l.participants && issued[sp].spId == sp;
      }
    }
  }

  /**
   * What plain Success tells the originator, over a run of the host's sessions and the run of its
   * chains: where a logout of a session that had not expired began the chain, the answer is plain
   * Success if and only if the rows could be read, the session had at most 200 SPs, and each of them
   * but the originator sent a reply, of full Success, to the LogoutRequest it was asked with.
   */
  lemma SuccessMeansEveryone(run: seq<State>, es: seq<Event>, k: nat, chains: seq<Logout.State>, hops: seq<Logout.Event>, b: nat, i: nat)
    requires IsRun(run, es) && Guarded(run, es) && k < |es| && es[k].LogOut? && es[k].deleteOk && run[k].now <= run[k].live[es[k].session]
    requires LogoutRuns.IsRun(chains, hops) && b < |hops| && hops[b].Ends?
    requires var l := Listed(run[k], es[k].session, es[k].listOk); hops[b].listed == l.participants && hops[b].partlyListed == l.truncated
    requires var out := chains[|hops|].outbox; i < |out| && out[i].Answered? && out[i].chain == hops[b].chain
    ensures es[k].session in run[k].issued
    ensures var m := chains[|hops|].outbox[i]; var issued := run[k].issued[es[k].session];
      !m.partial <==> (
        && es[k].listOk && |issued| <= MAX_PARTICIPANTS
        && forall sp :: sp in issued && sp != m.spId ==> LogoutRuns.RepliedWell(chains, hops, m.chain, sp))
  {
    RunKeeps(run, es, k);
    LogoutRuns.PlainSuccess(chains, hops, b, i);
    if es[k].listOk {
      LogOutLists(run, es, k);
      var l := Listed(run[k], es[k].session, true);
      if !l.truncated { ToldIsIssued(chains, hops, hops[b].chain, l, run[k].issued[es[k].session], chains[|hops|].outbox[i].spId); }
    }
  }

  // ---- The host's code -------------------------------------------------------------------------

  class Sessions {
    var now: int
    var live: map<nat, int>
    var rows: Table
    var ending: map<nat, int>
    var accounts: seq<Account>
    ghost var issued: map<nat, map<string, Logout.Participant>>
    ghost var ended: map<nat, bool>

    constructor (now: int)
      ensures View() == State(now, map[], [], map[], [], map[], map[])
    {
      this.now := now;
      live, rows, ending, accounts, issued, ended := map[], [], map[], [], map[], map[];
    }

    ghost function View(): State
      reads this
    {
      State(now, live, rows, ending, accounts, issued, ended)
    }

    /** Marks a session, and forgets markers over a minute old. */
    method MarkEndingBySlo(x: nat)
      modifies this`ending
      ensures ending == Pruned(old(ending), now)[x := now]
    {
      var left := ending.Keys;
      while left != {}
        invariant left <= old(ending).Keys
        invariant forall y :: y in ending <==> y in old(ending) && (y in left || now - old(ending)[y] <= ENDING_TTL)
        invariant forall y :: y in ending ==> ending[y] == old(ending)[y]
        decreases |left|
      {
        var y :| y in left;
        left := left - {y};
        if now - ending[y] > ENDING_TTL { ending := ending - {y}; }
      }
      ending := ending[x := now];
    }

    /** True only for a marker set within the last minute; it is gone afterwards. */
    method ConsumeEndingBySlo(x: nat) returns (recent: bool)
      modifies this`ending
      ensures recent <==> Hidden(old(ending), x, now)
      ensures ending == old(ending) - {x}
    {
      recent := x in ending && now - ending[x] <= ENDING_TTL;
      ending := ending - {x};
    }

    /** An assertion for `p` in session `x`: refreshes the row there is, or adds one. */
    method RecordParticipant(x: nat, userId: string, p: Logout.Participant)
      requires Possible(View(), Issue(x, userId, p))
      modifies this`rows, this`issued
      ensures View() == Step(old(View()), Issue(x, userId, p))
    {
      var i := Find(rows, x, p.spId);
      if i < 0 {
        rows := rows + [Row(x, p, userId, None, live[x])];
      } else {
        rows := rows[i := rows[i].(userId := userId, participant := p, expiresAt := live[x])];
      }
      issued := if x in issued then issued[x := issued[x][p.spId := p]] else issued;
    }

    /** `marked`: whether the database answers, and marks the rows. */
    method EndParticipants(x: nat, marked: bool) returns (l: Option<Listing>)
      modifies this`rows
      ensures var all := EndListing(old(rows), x); l == if marked || all.participants == [] then Some(all) else None
      ensures rows == if marked && l.value.participants != [] then Ended(old(rows), x, now) else old(rows)
    {
      var all := Firsts(RowsOf(rows, x), MAX_PARTICIPANTS + 1);
      var notEnded := NotEnded(all);
      if |notEnded| > 0 {
        if !marked { return None; }
        rows := Ended(rows, x, now);
      }
      l := Some(Listing(ToParticipants(Firsts(notEnded, MAX_PARTICIPANTS)), |all| > MAX_PARTICIPANTS));
    }

    /** The hook that runs after a session is deleted. `marked`, `told`: whether its calls get through. */
    method AfterDelete(x: nat, marked: bool, told: bool)
      modifies this`ending, this`rows, this`accounts
      ensures ending == old(ending) - {x}
      ensures var l := EndListing(old(rows), x);
        if Hidden(old(ending), x, now) || l.participants == [] || !marked then rows == old(rows) && accounts == old(accounts)
        else rows == Ended(old(rows), x, now) && accounts == if told then old(accounts) + [Reported(x, l)] else old(accounts)
    {
      var hidden := ConsumeEndingBySlo(x);
      if hidden { return; }
      var l := EndParticipants(x, marked);
      if l.None? || l.value.participants == [] || !told { return; }
      accounts := accounts + [Reported(x, l.value)];
    }

    /** A session ends by sign-out, expiry or revocation. */
    method EndOtherwise(x: nat, marked: bool, told: bool)
      requires Possible(View(), End(x, marked, told))
      modifies this
      ensures View() == Step(old(View()), End(x, marked, told))
    {
      ended := ended[x := now <= live[x]];
      live := live - {x};
      AfterDelete(x, marked, told);
    }

    /**
     * The session's end by Single Logout: its SPs are listed, the session is marked and deleted, its
     * rows are dropped. `listOk`, `deleteOk`, `forgetOk`: whether the database does as it is asked.
     */
    method EndSession(x: nat, listOk: bool, deleteOk: bool, hookRuns: bool, forgetOk: bool) returns (r: Option<Listing>)
      requires Possible(View(), LogOut(x, listOk, deleteOk, hookRuns, forgetOk))
      modifies this
      ensures View() == Step(old(View()), LogOut(x, listOk, deleteOk, hookRuns, forgetOk))
      ensures r == if deleteOk then Some(Listed(old(View()), x, listOk)) else None
    {
      var l := Listing([], true);
      if listOk {
        var notEnded := NotEnded(Firsts(RowsOf(rows, x), MAX_PARTICIPANTS + 1));
        l := Listing(ToParticipants(Firsts(notEnded, MAX_PARTICIPANTS)), |notEnded| > MAX_PARTICIPANTS);
      }
      MarkEndingBySlo(x);
      if !deleteOk {
        var _ := ConsumeEndingBySlo(x);
        return None;
      }
      ended := ended[x := now <= live[x]];
      live := live - {x};
      if hookRuns { AfterDelete(x, true, true); }
      if forgetOk { rows := Without(rows, x); }
      accounts := accounts + [Told(x, l, listOk)];
      r := Some(l);
    }
  }
}
