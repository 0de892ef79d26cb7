/**
AuthnRequests from arrival to Response, over whole runs: arrivals and replays, HTTP-POST re-entries,
logins and resumes, the sweep of expired rows, lost processes and the clock, in any interleaving.

Each database call is one atomic step. A process reads its clock and checks freshness in one step
and records the request ID in a later one. A request that has been accepted is carried by one thing
at a time: the process handling it, or one single-use token.
*/
module SsoRun {
  import opened Optional
  import opened Issuance

  const REQUEST_MAX_AGE := 300_000
  const CONTINUE_TTL := 120_000

  /** The UNIQUE column of a seen request: a hash of SP and request ID, taken as injective. */
  datatype Key = Key(spId: string, id: string)

  function KeyOf(m: Message): Key { Key(m.spId, m.id) }

  datatype Stored = Stored(continuation: bool, request: Request, expiresAt: int)

  /** What a process holds. `post`: the request came by HTTP-POST. */
  datatype InHand =
    | Checked(message: Message, readAt: int, post: bool)
    | Recorded(request: Request, post: bool)
    | Reentered(request: Request)
    | Resumed(request: Request, session: Session)

  /** A Response sent. */
  datatype Answer = Answer(request: Request, outcome: Outcome)

  datatype State = State(
    now: int,
    skew: nat,
    pendingTtl: nat,
    seen: map<Key, int>,
    tokens: map<nat, Stored>,
    hands: map<nat, InHand>,
    answers: seq<Answer>,
    parks: multiset<Message>)

  predicate Fresh(m: Message, now: int, skew: nat) {
    now - REQUEST_MAX_AGE - skew <= m.issueInstant <= now + skew
  }

  /** The last moment at which `m` passes the freshness check. */
  function LastFresh(m: Message, skew: nat): int { m.issueInstant + REQUEST_MAX_AGE + skew }

  // ---- Events -------------------------------------------------------------------------------

  datatype Event =
    | Tick(ms: nat)
    | Receive(pid: nat, message: Message, post: bool)
    | Record(pid: nat)
    | AnswerStatus(pid: nat)
    | Continue(pid: nat, token: nat)
    | Reenter(pid: nat, token: nat, ok: bool)
    | Handle(pid: nat, session: Option<Session>, verdicts: Verdicts, token: nat)
    | TakeUp(pid: nat, token: nat, user: Session, bound: bool)
    | Finish(pid: nat, verdicts: Verdicts, token: nat)
    | Lose(pid: nat)
    | Sweep

  /** A process has checked a message that a seen row was to cover, and a sweep now would take that row. */
  predicate Uncovers(s: State, p: nat) {
    && p in s.hands && s.hands[p].Checked? && KeyOf(s.hands[p].message) in s.seen
    && LastFresh(s.hands[p].message, s.skew) <= s.seen[KeyOf(s.hands[p].message)] < s.now
  }

  predicate SweepAllowed(s: State) {
    forall p :: p in s.hands ==> !Uncovers(s, p)
  }

  predicate Possible(s: State, e: Event) {
    match e
    case Tick(_) => true
    case Receive(p, _, _) => p !in s.hands
    case Record(p) => p in s.hands && s.hands[p].Checked?
    case AnswerStatus(p) => p in s.hands && s.hands[p].Recorded?
    case Continue(p, t) => p in s.hands && s.hands[p].Recorded? && s.hands[p].post && t !in s.tokens
    case Reenter(p, _, _) => p !in s.hands
    case Handle(p, session, _, t) =>
      && p in s.hands && (s.hands[p].Reentered? || (s.hands[p].Recorded? && !s.hands[p].post)) && t !in s.tokens
      && (session.Some? ==> session.value.createdAt <= s.now)
    case TakeUp(p, _, session, _) => p !in s.hands && session.createdAt <= s.now
    case Finish(p, _, t) => p in s.hands && s.hands[p].Resumed? && t !in s.tokens
    case Lose(p) => p in s.hands
    case Sweep => true
  }

  function Drop(s: State, p: nat): State { s.(hands := s.hands - {p}) }

  /** The process `p` is done with `request`: it sends a Response, parks it, or shows a page. */
  function Conclude(s: State, p: nat, request: Request, o: Outcome, token: nat): State {
    if o.Park? then
      Drop(s, p).(tokens := s.tokens[token := Stored(false, o.request, s.now + s.pendingTtl)], parks := s.parks + multiset{request.message})
    else if o.Page? then Drop(s, p)
    else Drop(s, p).(answers := s.answers + [Answer(request, o)])
  }

  function Consume(s: State, token: nat, continuation: bool): Option<Request> {
    if token in s.tokens && s.tokens[token].continuation == continuation && s.now <= s.tokens[token].expiresAt
    then Some(s.tokens[token].request) else None
  }

  function Step(s: State, e: Event): State
    requires Possible(s, e)
  {
    match e
    case Tick(ms) => s.(now := s.now + ms)
    case Receive(p, m, post) =>
      if Fresh(m, s.now, s.skew) then s.(hands := s.hands[p := Checked(m, s.now, post)]) else s
    case Record(p) =>
      var h := s.hands[p];
      if KeyOf(h.message) in s.seen then Drop(s, p)
      else s.(
        seen := s.seen[KeyOf(h.message) := h.readAt + REQUEST_MAX_AGE + 2 * s.skew],
        hands := s.hands[p := Recorded(Request(h.message, h.message.forceAuthn, h.readAt), h.post)])
    case AnswerStatus(p) => Conclude(s, p, s.hands[p].request, PolicyStatus, 0)
    case Continue(p, t) =>
      Drop(s, p).(tokens := s.tokens[t := Stored(true, s.hands[p].request, s.now + CONTINUE_TTL)])
    case Reenter(p, t, ok) =>
      var r := Consume(s, t, true);
      if r.None? then s
      else if ok then s.(tokens := s.tokens - {t}, hands := s.hands[p := Reentered(r.value)])
      else s.(tokens := s.tokens - {t})
    case Handle(p, session, v, t) => Conclude(s, p, s.hands[p].request, Proceed(s.hands[p].request, session, v, s.now), t)
    case TakeUp(p, t, session, bound) =>
      var r := Consume(s, t, false);
      if r.None? then s
      else if bound then s.(tokens := s.tokens - {t}, hands := s.hands[p := Resumed(r.value, session)])
      else s.(tokens := s.tokens - {t})
    case Finish(p, v, t) => Conclude(s, p, s.hands[p].request, Resume(s.hands[p].request, s.hands[p].session, v, s.now), t)
    case Lose(p) => Drop(s, p)
    case Sweep => s.(
        seen := map k | k in s.seen && s.seen[k] >= s.now :: s.seen[k],
        tokens := map t | t in s.tokens && s.tokens[t].expiresAt >= s.now :: s.tokens[t])
  }

  predicate Allowed(s: State, e: Event) {
    e.Sweep? ==> SweepAllowed(s)
  }

  predicate Initial(s: State) {
    s.seen == map[] && s.tokens == map[] && s.hands == map[] && s.answers == [] && s.parks == multiset{}
  }

  /** `run` holds the state before each event, and the last one. */
  ghost predicate IsRun(run: seq<State>, es: seq<Event>) {
    && |run| == |es| + 1
    && Initial(run[0])
    && forall i :: 0 <= i < |es| ==> Possible(run[i], es[i]) && run[i + 1] == Step(run[i], es[i])
  }

  /** A run in which no sweep, between a process's clock reading and its record, takes the row that covers its message. */
  ghost predicate Guarded(run: seq<State>, es: seq<Event>)
    requires |run| == |es| + 1
  {
    forall i :: 0 <= i < |es| ==> Allowed(run[i], es[i])
  }

  // ---- One carrier per accepted request --------------------------------------------------------

  datatype Place = Hand(pid: nat) | Token(token: nat) | Answered(index: nat) | Gone

  /** Where each message accepted so far is. */
  type Places = map<Message, Place>

  predicate Carries(h: InHand) { !h.Checked? }

  ghost predicate Placed(s: State, places: Places) {
    && (forall p :: p in s.hands && Carries(s.hands[p]) ==>
          s.hands[p].request.message in places && places[s.hands[p].request.message] == Hand(p))
    && (forall t :: t in s.tokens ==>
          s.tokens[t].request.message in places && places[s.tokens[t].request.message] == Token(t))
    && (forall i :: 0 <= i < |s.answers| ==>
          s.answers[i].request.message in places && places[s.answers[i].request.message] == Answered(i))
  }

  /** The same SP, request ID and IssueInstant. */
  predicate Twins(a: Message, b: Message) {
    KeyOf(a) == KeyOf(b) && a.issueInstant == b.issueInstant
  }

  /** The seen row of `m` is there as long as a twin of `m` could be fresh, for any process that checked one. */
  ghost predicate Covered(s: State, m: Message) {
    || (KeyOf(m) in s.seen && LastFresh(m, s.skew) <= s.seen[KeyOf(m)])
    || (LastFresh(m, s.skew) < s.now && forall p :: p in s.hands && s.hands[p].Checked? ==> !Twins(s.hands[p].message, m))
  }

  ghost predicate Timely(s: State) {
    forall p :: p in s.hands && s.hands[p].Checked? ==>
      s.hands[p].readAt <= s.now && Fresh(s.hands[p].message, s.hands[p].readAt, s.skew)
  }

  ghost predicate Inv(s: State, places: Places) {
    && Placed(s, places) && Timely(s)
    && (forall m :: m in places ==> Covered(s, m))
    && (forall a, b :: a in places && b in places && Twins(a, b) ==> a == b)
  }

  lemma StillCovered(s: State, s': State, m: Message)
    requires Covered(s, m) && s'.seen == s.seen && s'.skew == s.skew && s'.now == s.now
    requires forall p :: p in s'.hands && s'.hands[p].Checked? ==> p in s.hands && s'.hands[p] == s.hands[p]
    ensures Covered(s', m)
  {
  }

  lemma ConcludePlaces(s: State, places: Places, p: nat, o: Outcome, token: nat) returns (places': Places)
    requires Placed(s, places) && p in s.hands && Carries(s.hands[p])
    requires o.Park? ==> token !in s.tokens && o.request.message == s.hands[p].request.message
    ensures Placed(Conclude(s, p, s.hands[p].request, o, token), places') && places'.Keys == places.Keys
  {
    places' := places[s.hands[p].request.message := if o.Park? then Token(token) else if o.Page? then Gone else Answered(|s.answers|)];
  }

  lemma ConcludeKeeps(s: State, places: Places, p: nat, o: Outcome, token: nat) returns (places': Places)
    requires Inv(s, places) && p in s.hands && Carries(s.hands[p])
    requires o.Park? ==> token !in s.tokens && o.request.message == s.hands[p].request.message
    ensures Inv(Conclude(s, p, s.hands[p].request, o, token), places') && places.Keys <= places'.Keys
  {
    places' := ConcludePlaces(s, places, p, o, token);
    var s' := Conclude(s, p, s.hands[p].request, o, token);
    forall m | m in places' ensures Covered(s', m) {
      assert m in places;
      StillCovered(s, s', m);
    }
  }

  lemma RecordKeeps(s: State, places: Places, p: nat) returns (places': Places)
    requires Inv(s, places) && p in s.hands && s.hands[p].Checked?
    ensures Inv(Step(s, Record(p)), places') && places.Keys <= places'.Keys
    ensures KeyOf(s.hands[p].message) !in s.seen ==> s.hands[p].message !in places
  {
    var m := s.hands[p].message;
    var s' := Step(s, Record(p));
    places' := places;
    if KeyOf(m) !in s.seen {
      assert m in places ==> Covered(s, m);
      places' := places[m := Hand(p)];
    }
    forall m' | m' in places' ensures Covered(s', m') {
      assert m' == m || Covered(s, m');
    }
  }

  lemma SweepKeeps(s: State, places: Places)
    requires Inv(s, places) && SweepAllowed(s)
    ensures Inv(Step(s, Sweep), places)
  {
    var s' := Step(s, Sweep);
    forall m | m in places ensures Covered(s', m) {
      assert Covered(s, m);
      forall p | p in s.hands && s.hands[p].Checked? && Twins(s.hands[p].message, m) ensures KeyOf(m) in s'.seen {
        assert !Uncovers(s, p);
      }
    }
  }

  function Consumed(s: State, t: nat, h: Option<InHand>, p: nat): State {
    s.(tokens := s.tokens - {t}, hands := if h.Some? then s.hands[p := h.value] else s.hands)
  }

  lemma ConsumePlaces(s: State, places: Places, t: nat, h: Option<InHand>, p: nat) returns (places': Places)
    requires Placed(s, places) && t in s.tokens && p !in s.hands
    requires h.Some? ==> Carries(h.value) && h.value.request == s.tokens[t].request
    ensures Placed(Consumed(s, t, h, p), places') && places'.Keys == places.Keys
  {
    places' := places[s.tokens[t].request.message := if h.Some? then Hand(p) else Gone];
  }

  /** A single-use token is consumed: its request moves from the token to a process, or is gone. */
  lemma ConsumeKeeps(s: State, places: Places, t: nat, h: Option<InHand>, p: nat) returns (places': Places)
    requires Inv(s, places) && t in s.tokens && p !in s.hands
    requires h.Some? ==> Carries(h.value) && h.value.request == s.tokens[t].request
    ensures Inv(Consumed(s, t, h, p), places') && places.Keys <= places'.Keys
  {
    places' := ConsumePlaces(s, places, t, h, p);
    var s' := Consumed(s, t, h, p);
    forall m | m in places' ensures Covered(s', m) {
      assert m in places;
      StillCovered(s, s', m);
    }
  }

  lemma OtherKeeps(s: State, places: Places, e: Event) returns (places': Places)
    requires Inv(s, places) && Possible(s, e)
    requires e.Tick? || e.Receive? || e.Continue? || e.Lose?
    ensures Inv(Step(s, e), places') && places.Keys <= places'.Keys
  {
    var s' := Step(s, e);
    places' := places;
    if e.Continue? || (e.Lose? && Carries(s.hands[e.pid])) {
      places' := places[s.hands[e.pid].request.message := if e.Continue? then Token(e.token) else Gone];
    }
    forall m | m in places' ensures Covered(s', m) {
      assert Covered(s, m);
    }
  }

  lemma StepKeeps(s: State, places: Places, e: Event) returns (places': Places)
    requires Inv(s, places) && Possible(s, e) && Allowed(s, e)
    ensures Inv(Step(s, e), places') && places.Keys <= places'.Keys
  {
    places' := places;
    match e {
      case Record(p) => places' := RecordKeeps(s, places, p);
      case AnswerStatus(p) => places' := ConcludeKeeps(s, places, p, PolicyStatus, 0);
      case Reenter(p, t, ok) =>
        var r := Consume(s, t, true);
        if r.Some? { places' := ConsumeKeeps(s, places, t, if ok then Some(Reentered(r.value)) else None, p); }
      case Handle(p, session, v, t) =>
        places' := ConcludeKeeps(s, places, p, Proceed(s.hands[p].request, session, v, s.now), t);
      case TakeUp(p, t, user, bound) =>
        var r := Consume(s, t, false);
        if r.Some? { places' := ConsumeKeeps(s, places, t, if bound then Some(Resumed(r.value, user)) else None, p); }
      case Finish(p, v, t) =>
        places' := ConcludeKeeps(s, places, p, Resume(s.hands[p].request, s.hands[p].session, v, s.now), t);
      case Sweep => SweepKeeps(s, places);
      case _ => places' := OtherKeeps(s, places, e);
    }
  }

  lemma {:induction false} RunKeeps(run: seq<State>, es: seq<Event>) returns (places: Places)
    requires IsRun(run, es) && Guarded(run, es)
    ensures Inv(run[|es|], places)
    decreases |es|
  {
    if es == [] {
      places := map[];
    } else {
      var n := |es| - 1;
      places := RunKeeps(run[..|es|], es[..n]);
      places := StepKeeps(run[n], places, es[n]);
    }
  }

  // ---- Re-logins -------------------------------------------------------------------------------

  /** A request that has been parked: once, or a second time with authentication forced. */
  ghost predicate ParkedSo(parks: multiset<Message>, r: Request) {
    parks[r.message] == 1 || (parks[r.message] == 2 && r.forceAuthn)
  }

  ghost predicate Forced(r: Request) {
    r.message.forceAuthn ==> r.forceAuthn
  }

  ghost predicate TokenOk(parks: multiset<Message>, t: Stored) {
    && Forced(t.request)
    && (if t.continuation then parks[t.request.message] == 0 else ParkedSo(parks, t.request))
  }

  ghost predicate HandOk(parks: multiset<Message>, h: InHand) {
    Carries(h) ==>
      && Forced(h.request)
      && (if h.Resumed? then ParkedSo(parks, h.request) else parks[h.request.message] == 0)
  }

  ghost predicate Counted(s: State, places: Places) {
    && (forall t :: t in s.tokens ==> TokenOk(s.parks, s.tokens[t]))
    && (forall p :: p in s.hands ==> HandOk(s.parks, s.hands[p]))
    && (forall m :: s.parks[m] <= 2)
    && (forall m :: s.parks[m] > 0 ==> m in places)
    && (forall i :: 0 <= i < |s.answers| ==> Forced(s.answers[i].request))
  }

  lemma ConcludeCounts(s: State, places: Places, p: nat, o: Outcome, token: nat, places': Places)
    requires Inv(s, places) && Counted(s, places) && p in s.hands && Carries(s.hands[p])
    requires places.Keys <= places'.Keys
    requires o.Park? ==>
      && token !in s.tokens && o.request.message == s.hands[p].request.message && Forced(o.request)
      && (s.hands[p].Resumed? ==> !s.hands[p].request.forceAuthn && o.request.forceAuthn)
    ensures Counted(Conclude(s, p, s.hands[p].request, o, token), places')
  {
    assert HandOk(s.parks, s.hands[p]);
    if o.Park? { ParkCounts(s, places, p, o, token); }
  }

  /** The parked message is carried by nothing else, so nothing else counts its parks. */
  lemma ParkCounts(s: State, places: Places, p: nat, o: Outcome, token: nat)
    requires Placed(s, places) && Counted(s, places) && p in s.hands && Carries(s.hands[p]) && o.Park?
    requires token !in s.tokens && o.request.message == s.hands[p].request.message && Forced(o.request)
    requires s.hands[p].Resumed? ==> !s.hands[p].request.forceAuthn && o.request.forceAuthn
    ensures var s' := Conclude(s, p, s.hands[p].request, o, token);
      && (forall t :: t in s'.tokens ==> TokenOk(s'.parks, s'.tokens[t]))
      && (forall q :: q in s'.hands ==> HandOk(s'.parks, s'.hands[q]))
      && (forall m :: s'.parks[m] <= 2)
  {
    var s' := Conclude(s, p, s.hands[p].request, o, token);
    assert HandOk(s.parks, s.hands[p]);
    forall t | t in s'.tokens ensures TokenOk(s'.parks, s'.tokens[t]) {
      if t != token { assert TokenOk(s.parks, s.tokens[t]); }
    }
    forall q | q in s'.hands ensures HandOk(s'.parks, s'.hands[q]) {
      assert HandOk(s.parks, s.hands[q]);
    }
  }

  lemma HandleCounts(s: State, places: Places, e: Event, places': Places)
    requires Inv(s, places) && Counted(s, places) && Possible(s, e) && (e.Handle? || e.Finish?)
    requires places.Keys <= places'.Keys
    ensures Counted(Step(s, e), places')
  {
    match e {
      case Handle(p, session, v, t) =>
        assert HandOk(s.parks, s.hands[p]);
        ConcludeCounts(s, places, p, Proceed(s.hands[p].request, session, v, s.now), t, places');
      case Finish(p, v, t) =>
        assert HandOk(s.parks, s.hands[p]);
        ConcludeCounts(s, places, p, Resume(s.hands[p].request, s.hands[p].session, v, s.now), t, places');
    }
  }

  lemma RecordCounts(s: State, places: Places, p: nat, places': Places)
    requires Inv(s, places) && Counted(s, places) && Possible(s, Record(p))
    requires places.Keys <= places'.Keys
    ensures Counted(Step(s, Record(p)), places')
  {
    var _ := RecordKeeps(s, places, p);
    var s' := Step(s, Record(p));
    forall q | q in s'.hands ensures HandOk(s'.parks, s'.hands[q]) {
      assert q != p ==> HandOk(s.parks, s.hands[q]);
    }
  }

  /** A stored request moves between a token and a process as it is. */
  lemma MoveCounts(s: State, places: Places, e: Event, places': Places)
    requires Inv(s, places) && Counted(s, places) && Possible(s, e)
    requires !e.Handle? && !e.Finish? && !e.Record? && !e.AnswerStatus?
    requires places.Keys <= places'.Keys
    ensures Counted(Step(s, e), places')
  {
    MoveTokens(s, places, e);
    MoveHands(s, places, e);
  }

  lemma MoveTokens(s: State, places: Places, e: Event)
    requires Counted(s, places) && Possible(s, e)
    requires !e.Handle? && !e.Finish? && !e.Record? && !e.AnswerStatus?
    ensures var s' := Step(s, e);
      s'.parks == s.parks && s'.answers == s.answers && forall t :: t in s'.tokens ==> TokenOk(s'.parks, s'.tokens[t])
  {
    var s' := Step(s, e);
    forall t | t in s'.tokens ensures TokenOk(s'.parks, s'.tokens[t]) {
      if e.Continue? && t == e.token { assert HandOk(s.parks, s.hands[e.pid]); } else { assert TokenOk(s.parks, s.tokens[t]); }
    }
  }

  lemma MoveHands(s: State, places: Places, e: Event)
    requires Counted(s, places) && Possible(s, e)
    requires !e.Handle? && !e.Finish? && !e.Record? && !e.AnswerStatus?
    ensures var s' := Step(s, e); forall p :: p in s'.hands ==> HandOk(s'.parks, s'.hands[p])
  {
    var s' := Step(s, e);
    forall p | p in s'.hands ensures HandOk(s'.parks, s'.hands[p]) {
      if p in s.hands { assert HandOk(s.parks, s.hands[p]); }
      else if e.Reenter? || e.TakeUp? { assert TokenOk(s.parks, s.tokens[e.token]); }
    }
  }

  lemma StepCounts(s: State, places: Places, e: Event, places': Places)
    requires Inv(s, places) && Counted(s, places) && Possible(s, e)
    requires places.Keys <= places'.Keys
    ensures Counted(Step(s, e), places')
  {
    if e.Handle? || e.Finish? { HandleCounts(s, places, e, places'); }
    else if e.Record? { RecordCounts(s, places, e.pid, places'); }
    else if e.AnswerStatus? {
      assert HandOk(s.parks, s.hands[e.pid]);
      ConcludeCounts(s, places, e.pid, PolicyStatus, 0, places');
    } else { MoveCounts(s, places, e, places'); }
  }

  lemma {:induction false} RunCounts(run: seq<State>, es: seq<Event>) returns (places: Places)
    requires IsRun(run, es) && Guarded(run, es)
    ensures Inv(run[|es|], places) && Counted(run[|es|], places)
    decreases |es|
  {
    if es == [] {
      places := map[];
    } else {
      var n := |es| - 1;
      places := RunCounts(run[..|es|], es[..n]);
      var places' := StepKeeps(run[n], places, es[n]);
      StepCounts(run[n], places, es[n], places');
      places := places';
    }
  }

  /** One request is parked for login at most twice, on any run; the second time it is a forced one. */
  lemma ParkedAtMostTwice(run: seq<State>, es: seq<Event>, m: Message)
    requires IsRun(run, es) && Guarded(run, es)
    ensures run[|es|].parks[m] <= 2
    ensures forall t :: t in run[|es|].tokens && run[|es|].tokens[t].request.message == m && run[|es|].parks[m] == 2 ==>
      run[|es|].tokens[t].request.forceAuthn
  {
    var places := RunCounts(run, es);
    forall t | t in run[|es|].tokens ensures TokenOk(run[|es|].parks, run[|es|].tokens[t]) {}
  }

  // ---- What holds of every run -------------------------------------------------------------------

  /**
   * One SP's request ID, sent with one IssueInstant, gets at most one Response: whatever else
   * differs between the copies, whatever is replayed, re-entered, resumed, swept or lost, and
   * however long the run.
   */
  lemma AtMostOneResponse(run: seq<State>, es: seq<Event>, i: nat, j: nat)
    requires IsRun(run, es) && Guarded(run, es)
    requires i < |run[|es|].answers| && j < |run[|es|].answers|
    requires Twins(run[|es|].answers[i].request.message, run[|es|].answers[j].request.message)
    ensures i == j
  {
    var places := RunKeeps(run, es);
  }

  predicate HeldBy(s: State, p: nat, m: Message) {
    p in s.hands && Carries(s.hands[p]) && s.hands[p].request.message == m
  }

  predicate StoredAs(s: State, t: nat, m: Message) {
    t in s.tokens && s.tokens[t].request.message == m
  }

  predicate AnsweredAt(s: State, i: nat, m: Message) {
    i < |s.answers| && s.answers[i].request.message == m
  }

  /**
   * At any moment an accepted request is in one place: with one process, in one live token, or
   * answered.
   */
  lemma OnePlace(run: seq<State>, es: seq<Event>, m: Message)
    requires IsRun(run, es) && Guarded(run, es)
    ensures var s := run[|es|];
      && (forall p, q :: HeldBy(s, p, m) && HeldBy(s, q, m) ==> p == q)
      && (forall t, u :: StoredAs(s, t, m) && StoredAs(s, u, m) ==> t == u)
      && (forall p, t :: !(HeldBy(s, p, m) && StoredAs(s, t, m)))
      && (forall p, i :: !(HeldBy(s, p, m) && AnsweredAt(s, i, m)))
      && (forall t, i :: !(StoredAs(s, t, m) && AnsweredAt(s, i, m)))
  {
    var places := RunKeeps(run, es);
  }
}
