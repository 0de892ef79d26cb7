/**
The SSO and resume endpoints as one host runs them, one request at a time, over the database they
change. Each is proved to be a sequence of the steps of `SsoRun`, so what holds of every run there
holds of what these leave behind.
*/
module SsoEndpoints {
  import opened Optional
  import opened Issuance
  import opened SsoRun
  import SsoLimits

  const SWEEP_INTERVAL := 60_000

  /** What one arriving request meets on its way; the rest is in the database. */
  datatype Arrival = Arrival(message: Message, post: bool, refused: bool, session: Option<Session>, verdicts: Verdicts)

  /** The steps of one AuthnRequest, by process 0: received, recorded, then refused, re-entered or handled. */
  function Arrived(s: State, a: Arrival, rid: nat): (s': State)
    requires s.hands == map[] && rid !in s.tokens
    requires a.session.Some? ==> a.session.value.createdAt <= s.now
  {
    if !Fresh(a.message, s.now, s.skew) then s
    else
      var r := Step(Step(s, Receive(0, a.message, a.post)), Record(0));
      if 0 !in r.hands then r
      else if a.refused then Step(r, AnswerStatus(0))
      else if a.post then Step(r, Continue(0, rid))
      else Step(r, Handle(0, a.session, a.verdicts, rid))
  }

  /** The same-site GET that follows a POST. */
  function Continued(s: State, cid: nat, ok: bool, session: Option<Session>, v: Verdicts, rid: nat): State
    requires s.hands == map[] && rid !in s.tokens
    requires session.Some? ==> session.value.createdAt <= s.now
  {
    var r := Step(s, Reenter(0, cid, ok));
    if 0 !in r.hands then r else Step(r, Handle(0, session, v, rid))
  }

  function Resumption(s: State, rid: nat, session: Option<Session>, bound: bool, v: Verdicts, next: nat): State
    requires s.hands == map[] && next !in s.tokens
    requires session.Some? ==> session.value.createdAt <= s.now
  {
    if session.None? then s
    else
      var r := Step(s, TakeUp(0, rid, session.value, bound));
      if 0 !in r.hands then r else Step(r, Finish(0, v, next))
  }

  /** A request concluded with no other process about. */
  function Ending(s: State, request: Request, o: Outcome, rid: nat): State {
    s.(tokens := if o.Park? then s.tokens[rid := Stored(false, o.request, s.now + s.pendingTtl)] else s.tokens,
       answers := if o.Park? || o.Page? then s.answers else s.answers + [Answer(request, o)],
       parks := if o.Park? then s.parks + multiset{o.request.message} else s.parks)
  }

  lemma Alone(s: State, h: InHand, o: Outcome, rid: nat)
    requires s.hands == map[] && Carries(h) && (o.Park? ==> o.request.message == h.request.message)
    ensures Conclude(s.(hands := map[0 := h]), 0, h.request, o, rid) == Ending(s, h.request, o, rid)
  {
    assert map[0 := h] - {0} == map[];
  }

  function Remembered(s: State, m: Message): State {
    s.(seen := s.seen[KeyOf(m) := s.now + REQUEST_MAX_AGE + 2 * s.skew])
  }

  function Asked(m: Message, now: int): Request { Request(m, m.forceAuthn, now) }

  /** The request is fresh, and the first with its SP and ID. */
  predicate Admitted(s: State, a: Arrival) {
    Fresh(a.message, s.now, s.skew) && KeyOf(a.message) !in s.seen
  }

  /** What the first copy of a request leaves behind, once its ID is remembered. */
  function FirstCopy(s: State, a: Arrival, rid: nat): State {
    var r := Asked(a.message, s.now);
    if a.refused then Ending(s, r, PolicyStatus, 0)
    else if a.post then s.(tokens := s.tokens[rid := Stored(true, r, s.now + CONTINUE_TTL)])
    else Ending(s, r, Proceed(r, a.session, a.verdicts, s.now), rid)
  }

  lemma ArrivedFirst(s: State, a: Arrival, rid: nat)
    requires s.hands == map[] && rid !in s.tokens && Admitted(s, a)
    requires a.session.Some? ==> a.session.value.createdAt <= s.now
    ensures Arrived(s, a, rid) == FirstCopy(Remembered(s, a.message), a, rid)
  {
    var s1 := Remembered(s, a.message);
    var r := Asked(a.message, s.now);
    var h := Recorded(r, a.post);
    var c := Step(s, Receive(0, a.message, a.post));
    assert c.hands[0] == Checked(a.message, s.now, a.post);
    assert Step(c, Record(0)) == s1.(hands := map[0 := h]);
    assert map[0 := h] - {0} == map[];
    if a.refused { Alone(s1, h, PolicyStatus, 0); }
    else if !a.post { Alone(s1, h, Proceed(r, a.session, a.verdicts, s.now), rid); }
  }

  lemma ArrivedAgain(s: State, a: Arrival, rid: nat)
    requires s.hands == map[] && rid !in s.tokens && !Admitted(s, a)
    requires a.session.Some? ==> a.session.value.createdAt <= s.now
    ensures Arrived(s, a, rid) == s
  {
    assert map[0 := Checked(a.message, s.now, a.post)] - {0} == map[];
  }

  lemma ArrivedIs(s: State, a: Arrival, rid: nat)
    requires s.hands == map[] && rid !in s.tokens
    requires a.session.Some? ==> a.session.value.createdAt <= s.now
    ensures Arrived(s, a, rid) == if Admitted(s, a) then FirstCopy(Remembered(s, a.message), a, rid) else s
  {
    if Admitted(s, a) { ArrivedFirst(s, a, rid); } else { ArrivedAgain(s, a, rid); }
  }

  lemma ContinuedIs(s: State, cid: nat, ok: bool, session: Option<Session>, v: Verdicts, rid: nat)
    requires s.hands == map[] && rid !in s.tokens
    requires session.Some? ==> session.value.createdAt <= s.now
    ensures var r := Consume(s, cid, true); var s1 := s.(tokens := s.tokens - {cid});
      Continued(s, cid, ok, session, v, rid) ==
        if r.None? then s
        else if !ok then s1
        else Ending(s1, r.value, Proceed(r.value, session, v, s.now), rid)
  {
    var r := Consume(s, cid, true);
    if r.Some? && ok {
      var s1 := s.(tokens := s.tokens - {cid});
      assert Step(s, Reenter(0, cid, ok)) == s1.(hands := map[0 := Reentered(r.value)]);
      Alone(s1, Reentered(r.value), Proceed(r.value, session, v, s.now), rid);
    }
  }

  lemma ResumptionIs(s: State, rid: nat, session: Session, bound: bool, v: Verdicts, next: nat)
    requires s.hands == map[] && next !in s.tokens && session.createdAt <= s.now
    ensures var r := Consume(s, rid, false); var s1 := s.(tokens := s.tokens - {rid});
      Resumption(s, rid, Some(session), bound, v, next) ==
        if r.None? then s
        else if !bound then s1
        else Ending(s1, r.value, Resume(r.value, session, v, s.now), next)
  {
    var r := Consume(s, rid, false);
    if r.Some? && bound {
      var s1 := s.(tokens := s.tokens - {rid});
      assert Step(s, TakeUp(0, rid, session, bound)) == s1.(hands := map[0 := Resumed(r.value, session)]);
      Alone(s1, Resumed(r.value, session), Resume(r.value, session, v, s.now), next);
    }
  }

  /** What the endpoints do one after another is a run that keeps to the guard, so the run theorems hold of it. */
  lemma ArrivedRuns(run: seq<State>, es: seq<Event>, a: Arrival, rid: nat) returns (run': seq<State>, es': seq<Event>)
    requires IsRun(run, es) && Guarded(run, es) && run[|es|].hands == map[] && rid !in run[|es|].tokens
    requires a.session.Some? ==> a.session.value.createdAt <= run[|es|].now
    ensures IsRun(run', es') && Guarded(run', es')
    ensures run'[|es'|] == Arrived(run[|es|], a, rid) && run'[|es'|].hands == map[]
    ensures var s, m := run[|es|], a.message;
      var stale := m.issueInstant < s.now - 300_000 - s.skew || s.now + s.skew < m.issueInstant;
      && (stale ==> es' == es)
      && (!stale && Key(m.spId, m.id) in s.seen ==> es' == es + [Receive(0, m, a.post), Record(0)])
      && (!stale && Key(m.spId, m.id) !in s.seen ==>
            es' == es + [Receive(0, m, a.post), Record(0), if a.refused then AnswerStatus(0) else if a.post then Continue(0, rid) else Handle(0, a.session, a.verdicts, rid)])
  {
    var s := run[|es|];
    run', es' := run, es;
    if Fresh(a.message, s.now, s.skew) {
      run', es' := SsoLimits.Extend(run, es, Receive(0, a.message, a.post), true);
      run', es' := SsoLimits.Extend(run', es', Record(0), true);
      var r := run'[|es'|];
      if KeyOf(a.message) in s.seen {
        ArrivedAgain(s, a, rid);
        assert r.hands == map[];
      } else {
        ArrivedFirst(s, a, rid);
        var e := if a.refused then AnswerStatus(0) else if a.post then Continue(0, rid) else Handle(0, a.session, a.verdicts, rid);
        run', es' := SsoLimits.Extend(run', es', e, true);
      }
    }
  }

  lemma ContinuedRuns(run: seq<State>, es: seq<Event>, cid: nat, ok: bool, session: Option<Session>, v: Verdicts, rid: nat)
    returns (run': seq<State>, es': seq<Event>)
    requires IsRun(run, es) && Guarded(run, es) && run[|es|].hands == map[] && rid !in run[|es|].tokens
    requires session.Some? ==> session.value.createdAt <= run[|es|].now
    ensures IsRun(run', es') && Guarded(run', es')
    ensures run'[|es'|] == Continued(run[|es|], cid, ok, session, v, rid) && run'[|es'|].hands == map[]
    ensures var s := run[|es|];
      var taken := ok && cid in s.tokens && s.tokens[cid].continuation && s.now <= s.tokens[cid].expiresAt;
      es' == if taken then es + [Reenter(0, cid, ok), Handle(0, session, v, rid)] else es + [Reenter(0, cid, ok)]
  {
    ContinuedIs(run[|es|], cid, ok, session, v, rid);
    run', es' := SsoLimits.Extend(run, es, Reenter(0, cid, ok), true);
    if 0 in run'[|es'|].hands { run', es' := SsoLimits.Extend(run', es', Handle(0, session, v, rid), true); }
  }

  lemma ResumptionRuns(run: seq<State>, es: seq<Event>, rid: nat, session: Session, bound: bool, v: Verdicts, next: nat)
    returns (run': seq<State>, es': seq<Event>)
    requires IsRun(run, es) && Guarded(run, es) && run[|es|].hands == map[] && next !in run[|es|].tokens
    requires session.createdAt <= run[|es|].now
    ensures IsRun(run', es') && Guarded(run', es')
    ensures run'[|es'|] == Resumption(run[|es|], rid, Some(session), bound, v, next) && run'[|es'|].hands == map[]
    ensures var s := run[|es|];
      var taken := bound && rid in s.tokens && !s.tokens[rid].continuation && s.now <= s.tokens[rid].expiresAt;
      es' == if taken then es + [TakeUp(0, rid, session, bound), Finish(0, v, next)] else es + [TakeUp(0, rid, session, bound)]
  {
    ResumptionIs(run[|es|], rid, session, bound, v, next);
    run', es' := SsoLimits.Extend(run, es, TakeUp(0, rid, session, bound), true);
    if 0 in run'[|es'|].hands { run', es' := SsoLimits.Extend(run', es', Finish(0, v, next), true); }
  }

  class Endpoints {
    var now: int
    const skew: nat
    const pendingTtl: nat
    var lastSweep: int
    var seen: map<Key, int>
    var tokens: map<nat, Stored>
    var answers: seq<Answer>
    ghost var parks: multiset<Message>

    constructor (now: int, skew: nat, pendingTtl: nat)
      ensures Initial(View())
    {
      this.now, this.skew, this.pendingTtl, lastSweep := now, skew, pendingTtl, 0;
      seen, tokens, answers, parks := map[], map[], [], multiset{};
    }

    ghost function View(): State
      reads this
    {
      State(now, skew, pendingTtl, seen, tokens, map[], answers, parks)
    }

    /** Sweeps at most once a minute. */
    method SweepExpired()
      modifies this`lastSweep, this`seen, this`tokens
      ensures View() == if now - old(lastSweep) < SWEEP_INTERVAL then old(View()) else Step(old(View()), Sweep)
      ensures lastSweep == if now - old(lastSweep) < SWEEP_INTERVAL then old(lastSweep) else now
    {
      if now - lastSweep < SWEEP_INTERVAL { return; }
      lastSweep := now;
      seen := map k | k in seen && seen[k] >= now :: seen[k];
      tokens := map t | t in tokens && tokens[t].expiresAt >= now :: tokens[t];
    }

    /** The first sight of an SP's request ID wins; the UNIQUE key refuses every later one. */
    method RecordRequestId(key: Key, expiresAt: int) returns (first: bool)
      modifies this`seen
      ensures first <==> key !in old(seen)
      ensures seen == if first then old(seen)[key := expiresAt] else old(seen)
    {
      if key in seen { return false; }
      seen := seen[key := expiresAt];
      return true;
    }

    method StoreValue(rid: nat, continuation: bool, request: Request, ttl: nat)
      requires rid !in tokens
      modifies this`tokens
      ensures tokens == old(tokens)[rid := Stored(continuation, request, now + ttl)]
    {
      tokens := tokens[rid := Stored(continuation, request, now + ttl)];
    }

    /** Single use: what is returned is there no more. */
    method ConsumeValue(rid: nat, continuation: bool) returns (r: Option<Request>)
      modifies this`tokens
      ensures r == Consume(old(View()), rid, continuation)
      ensures tokens == if r.Some? then old(tokens) - {rid} else old(tokens)
      ensures r.Some? ==> rid !in tokens
    {
      if rid !in tokens || tokens[rid].continuation != continuation || now > tokens[rid].expiresAt { return None; }
      r := Some(tokens[rid].request);
      tokens := tokens - {rid};
    }

    method Respond(request: Request, o: Outcome)
      requires IsResponse(o)
      modifies this`answers
      ensures answers == old(answers) + [Answer(request, o)]
    {
      answers := answers + [Answer(request, o)];
    }

    method ParkForLogin(request: Request, rid: nat) returns (o: Outcome)
      requires rid !in tokens
      modifies this`tokens, this`parks
      ensures o == Park(request)
      ensures tokens == old(tokens)[rid := Stored(false, request, now + pendingTtl)]
      ensures parks == old(parks) + multiset{request.message}
    {
      StoreValue(rid, false, request, pendingTtl);
      parks := parks + multiset{request.message};
      o := Park(request);
    }

    /** What `o` leaves behind, whichever way it was reached. */
    twostate predicate Left(request: Request, o: Outcome, rid: nat)
      reads this
    {
      && tokens == (if o.Park? then old(tokens)[rid := Stored(false, o.request, now + pendingTtl)] else old(tokens))
      && answers == (if o.Park? || o.Page? then old(answers) else old(answers) + [Answer(request, o)])
      && parks == (if o.Park? then old(parks) + multiset{o.request.message} else old(parks))
    }

    method SignInAgain(request: Request, rid: nat) returns (o: Outcome)
      requires rid !in tokens
      modifies this`tokens, this`parks
      ensures o == Park(Again(request, now)) && Left(request, o, rid)
    {
      o := ParkForLogin(request.(forceAuthn := true, createdAt := now), rid);
    }

    /** The session's class is not enough for `asked`. */
    method StepUpRound(request: Request, session: Session, asked: Context, levels: seq<Class>, rid: nat) returns (o: Outcome)
      requires rid !in tokens
      modifies this`tokens, this`answers, this`parks
      ensures o == StepUp(request, session, asked, levels, now) && Left(request, o, rid)
    {
      var target := StepUpTarget(asked, levels);
      if target.None? || asked.comparison == Maximum {
        o := NoAuthnContext;
      } else if request.message.isPassive {
        o := NoPassive;
      } else if request.forceAuthn && session.createdAt >= request.createdAt {
        o := NoAuthnContext;
      } else {
        o := SignInAgain(request, rid);
        return;
      }
      Respond(request, o);
    }

    method IssueResponse(request: Request, session: Session, v: Verdicts, rid: nat) returns (o: Outcome)
      requires rid !in tokens
      modifies this`tokens, this`answers, this`parks
      ensures o == Issue(request, session, v, now) && Left(request, o, rid)
    {
      if v.identity.None? { return Page; }
      if request.message.tenant != v.identity.value { return Page; }
      if v.principalRefused { return Page; }
      if !v.authorization.Allow? {
        if !v.authorization.Reauthenticate? { return Page; }
        if request.message.isPassive { Respond(request, NoPassive); return NoPassive; }
        if request.forceAuthn && session.createdAt >= request.createdAt { return Page; }
        o := SignInAgain(request, rid);
        return;
      }
      var achieved: Option<Class> := None;
      if v.levels.Some? {
        achieved := v.achieved;
        if achieved.None? || achieved.value !in v.levels.value { return Page; }
        if request.message.context.Some? && !Satisfies(request.message.context.value, achieved.value, v.levels.value) {
          o := StepUpRound(request, session, request.message.context.value, v.levels.value, rid);
          return;
        }
      }
      if v.unusable { return Page; }
      if !v.subjectMatches { Respond(request, UnknownPrincipal); return UnknownPrincipal; }
      if !v.recorded { return Page; }
      o := Assertion(session, achieved, v.identity.value);
      Respond(request, o);
    }

    method ProceedWith(request: Request, session: Option<Session>, v: Verdicts, rid: nat) returns (o: Outcome)
      requires rid !in tokens
      modifies this`tokens, this`answers, this`parks
      ensures o == Proceed(request, session, v, now) && Left(request, o, rid)
    {
      if session.Some? && !request.forceAuthn {
        o := IssueResponse(request, session.value, v, rid);
        return;
      }
      if request.message.isPassive { Respond(request, NoPassive); return NoPassive; }
      o := ParkForLogin(request, rid);
    }

    /** The first copy of a request is refused, kept for the same-site GET, or handled. */
    method HandleFirst(a: Arrival, request: Request, rid: nat)
      requires rid !in tokens && request == Asked(a.message, now)
      modifies this`tokens, this`answers, this`parks
      ensures View() == FirstCopy(old(View()), a, rid)
    {
      if a.refused {
        Respond(request, PolicyStatus);
      } else if a.post {
        StoreValue(rid, true, request, CONTINUE_TTL);
      } else {
        var o := ProceedWith(request, a.session, a.verdicts, rid);
      }
    }

    /** The checks an AuthnRequest passes first: its IssueInstant, and that its ID was not seen. */
    method Admit(a: Arrival) returns (admitted: bool)
      modifies this`seen
      ensures admitted <==> Admitted(old(View()), a)
      ensures View() == if admitted then Remembered(old(View()), a.message) else old(View())
    {
      if a.message.issueInstant < now - REQUEST_MAX_AGE - skew || a.message.issueInstant > now + skew { return false; }
      admitted := RecordRequestId(KeyOf(a.message), now + REQUEST_MAX_AGE + 2 * skew);
    }

    /** An AuthnRequest by HTTP-Redirect or HTTP-POST. `a.refused`: a status no session could change. */
    method HandleSso(a: Arrival, rid: nat)
      requires rid !in tokens
      requires a.session.Some? ==> a.session.value.createdAt <= now
      modifies this`seen, this`tokens, this`answers, this`parks
      ensures View() == Arrived(old(View()), a, rid)
    {
      ArrivedIs(View(), a, rid);
      var admitted := Admit(a);
      if !admitted { return; }
      HandleFirst(a, Request(a.message, a.message.forceAuthn, now), rid);
    }

    /** The second leg of an HTTP-POST request. `ok`: the SP, its ACS URL and its tenant are as they were. */
    method HandleContinuation(cid: nat, ok: bool, session: Option<Session>, v: Verdicts, rid: nat)
      requires rid !in tokens
      requires session.Some? ==> session.value.createdAt <= now
      modifies this`tokens, this`answers, this`parks
      ensures View() == Continued(old(View()), cid, ok, session, v, rid)
    {
      ContinuedIs(View(), cid, ok, session, v, rid);
      var r := ConsumeValue(cid, true);
      if r.None? { return; }
      if !ok { return; }
      var o := ProceedWith(r.value, session, v, rid);
    }

    /** A consumed request, in the browser it was parked for: checked again, then issued. */
    method ResumeConsumed(request: Request, session: Session, v: Verdicts, rid: nat) returns (o: Outcome)
      requires rid !in tokens
      modifies this`tokens, this`answers, this`parks
      ensures o == Resume(request, session, v, now) && Left(request, o, rid)
    {
      if !v.spThere { return Page; }
      if request.forceAuthn && session.createdAt < request.createdAt { return Page; }
      o := IssueResponse(request, session, v, rid);
    }

    /** The browser comes back from the login page. `bound`: it is the browser that was sent there. */
    method HandleResume(rid: nat, session: Option<Session>, bound: bool, v: Verdicts, next: nat)
      requires next !in tokens
      requires session.Some? ==> session.value.createdAt <= now
      modifies this`tokens, this`answers, this`parks
      ensures View() == Resumption(old(View()), rid, session, bound, v, next)
    {
      if session.None? { return; }
      ResumptionIs(View(), rid, session.value, bound, v, next);
      var r := ConsumeValue(rid, false);
      if r.None? { return; }
      if !bound { return; }
      var o := ResumeConsumed(r.value, session.value, v, next);
    }
  }
}
