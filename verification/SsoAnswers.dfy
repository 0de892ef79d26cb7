/**
What each request is answered, over whole runs: for every kind of Response exactly the steps that
send it, said of the request, the session and what the host and the database said; and where the
requests that processes and tokens carry came from.
*/
module SsoAnswers {
  import opened Optional
  import opened Issuance
  import opened SsoRun

  // ---- The cases, from the verdicts --------------------------------------------------------------

  /** An identity of the tenant the request was made to, for a user who is not refused. */
  predicate Welcome(r: Request, v: Verdicts) {
    v.identity == Some(r.message.tenant) && !v.principalRefused
  }

  /** The SP asked for a class, and the level this session is at is not enough. */
  predicate Short(r: Request, v: Verdicts) {
    && v.levels.Some? && v.achieved.Some? && v.achieved.value in v.levels.value && r.message.context.Some?
    && !Satisfies(r.message.context.value, v.achieved.value, v.levels.value)
  }

  /** The session is at one of the levels, if there are any, and it is enough. */
  predicate Enough(r: Request, v: Verdicts) {
    (v.levels == None || (v.achieved.Some? && v.achieved.value in v.levels.value)) && !Short(r, v)
  }

  /** Another login could reach a level that is enough. */
  predicate Reachable(r: Request, v: Verdicts)
    requires Short(r, v)
  {
    var c := r.message.context.value;
    c.comparison != Maximum && exists l :: l in v.levels.value && Satisfies(c, l, v.levels.value)
  }

  /** This session will not do, and another login may. */
  predicate Wanting(r: Request, v: Verdicts) {
    Welcome(r, v) && (v.authorization == Reauthenticate || (v.authorization == Allow && Short(r, v) && Reachable(r, v)))
  }

  /** The user has signed in for this very request already. */
  predicate Retried(r: Request, session: Session) {
    r.forceAuthn && r.createdAt <= session.createdAt
  }

  predicate Handles(s: State, e: Event) {
    (e.Handle? || e.Finish?) && Possible(s, e)
  }

  /** The session by which the step may go on: for a resume, one not older than a forced request, of an SP still there. */
  predicate SignedIn(s: State, e: Event, session: Session)
    requires Handles(s, e)
  {
    var r := s.hands[e.pid].request;
    if e.Handle? then e.session == Some(session) && !r.forceAuthn
    else s.hands[e.pid].session == session && e.verdicts.spThere && (r.forceAuthn ==> r.createdAt <= session.createdAt)
  }

  predicate SignedOut(s: State, e: Event)
    requires Handles(s, e)
  {
    e.Handle? && (e.session == None || s.hands[e.pid].request.forceAuthn)
  }

  /** The session of the user, if any. */
  function SessionOf(s: State, e: Event): Option<Session>
    requires Handles(s, e)
  {
    if e.Handle? then e.session else Some(s.hands[e.pid].session)
  }

  /** Exactly when the Response `o` is due. */
  predicate Due(s: State, e: Event, o: Outcome)
    requires Handles(s, e)
  {
    var r, v, u := s.hands[e.pid].request, e.verdicts, SessionOf(s, e);
    match o
    case Assertion(session, achieved, tenant) =>
      && SignedIn(s, e, session) && Welcome(r, v) && v.authorization == Allow && Enough(r, v)
      && !v.unusable && v.subjectMatches && v.recorded
      && tenant == r.message.tenant && achieved == (if v.levels == None then None else v.achieved)
    case UnknownPrincipal =>
      u.Some? && SignedIn(s, e, u.value) && Welcome(r, v) && v.authorization == Allow && Enough(r, v) && !v.unusable && !v.subjectMatches
    case NoAuthnContext =>
      && u.Some? && SignedIn(s, e, u.value) && Welcome(r, v) && v.authorization == Allow && Short(r, v)
      && (Reachable(r, v) ==> !r.message.isPassive && Retried(r, u.value))
    case NoPassive =>
      r.message.isPassive && (SignedOut(s, e) || (u.Some? && SignedIn(s, e, u.value) && Wanting(r, v)))
    case _ => false
  }

  /** Exactly when the request is parked: as it is for a first login, or for `again` from now on. */
  predicate ParkDue(s: State, e: Event, parked: Request)
    requires Handles(s, e)
  {
    var r, u := s.hands[e.pid].request, SessionOf(s, e);
    && !r.message.isPassive
    && ((SignedOut(s, e) && parked == r)
        || (u.Some? && SignedIn(s, e, u.value) && Wanting(r, e.verdicts) && !Retried(r, u.value)
            && parked == Request(r.message, true, s.now)))
  }

  // ---- One step ---------------------------------------------------------------------------------

  lemma TargetIs(r: Context, levels: seq<Class>)
    ensures StepUpTarget(r, levels).Some? <==> exists l :: l in levels && Satisfies(r, l, levels)
  {}

  lemma IssuedAs(r: Request, session: Session, v: Verdicts, now: int)
    ensures var o, welcome := Issue(r, session, v, now), Welcome(r, v);
      && (o.Assertion? <==> welcome && v.authorization == Allow && Enough(r, v) && !v.unusable && v.subjectMatches && v.recorded)
      && (o.Assertion? ==> o == Assertion(session, if v.levels == None then None else v.achieved, r.message.tenant))
      && (o.UnknownPrincipal? <==> welcome && v.authorization == Allow && Enough(r, v) && !v.unusable && !v.subjectMatches)
      && (o.NoAuthnContext? <==> welcome && v.authorization == Allow && Short(r, v) && (Reachable(r, v) ==> !r.message.isPassive && Retried(r, session)))
      && (o.NoPassive? <==> Wanting(r, v) && r.message.isPassive)
      && (o.Park? <==> Wanting(r, v) && !r.message.isPassive && !Retried(r, session))
      && (o.Park? ==> o.request == Request(r.message, true, now))
      && !o.PolicyStatus?
  {
    hide Satisfies;
    if Short(r, v) { TargetIs(r.message.context.value, v.levels.value); }
  }

  /** What a handling comes to: the Response that is due, the request parked as is due, or a page. */
  lemma ComesTo(s: State, e: Event) returns (o: Outcome)
    requires Handles(s, e)
    ensures Step(s, e) == Conclude(s, e.pid, s.hands[e.pid].request, o, e.token)
    ensures forall x :: Due(s, e, x) <==> x == o && !o.Page? && !o.Park?
    ensures forall q :: ParkDue(s, e, q) <==> o == Park(q)
  {
    hide Satisfies;
    var r, u := s.hands[e.pid].request, SessionOf(s, e);
    if u.Some? { IssuedAs(r, u.value, e.verdicts, s.now); }
    o := if e.Handle? then Proceed(r, e.session, e.verdicts, s.now) else Resume(r, s.hands[e.pid].session, e.verdicts, s.now);
    hide Issue;
  }

  /** The process is done: one Response sent, one request parked, or neither. */
  lemma HandledSo(s: State, e: Event)
    requires Handles(s, e)
    ensures var r, s' := s.hands[e.pid].request, Step(s, e);
      && s'.hands == s.hands - {e.pid}
      && (forall o :: Due(s, e, o) ==> s'.answers == s.answers + [Answer(r, o)])
      && (s'.answers == s.answers || exists o :: Due(s, e, o) && s'.answers == s.answers + [Answer(r, o)])
      && (forall q :: ParkDue(s, e, q) ==> s'.tokens == s.tokens[e.token := Stored(false, q, s.now + s.pendingTtl)] && s'.parks == s.parks + multiset{r.message})
      && ((s'.tokens == s.tokens && s'.parks == s.parks) || exists q :: ParkDue(s, e, q))
  {
    var o := ComesTo(s, e);
    hide Due, ParkDue, Step;
    if o.Park? { assert ParkDue(s, e, o.request); } else if !o.Page? { assert Due(s, e, o); }
  }

  // ---- Over runs ---------------------------------------------------------------------------------

  /** The step answers `r` with `o`: a refusal no session could change, or what is due. */
  predicate Answers(s: State, e: Event, r: Request, o: Outcome)
    requires Possible(s, e)
  {
    && (e.AnswerStatus? || Handles(s, e)) && s.hands[e.pid].request == r
    && (if e.AnswerStatus? then o == PolicyStatus else Due(s, e, o))
  }

  lemma StepAnswers(s: State, e: Event)
    requires Possible(s, e)
    ensures Step(s, e).answers == s.answers || exists r, o :: Answers(s, e, r, o)
    ensures forall r, o :: Answers(s, e, r, o) ==> Step(s, e).answers == s.answers + [Answer(r, o)]
  {
    if Handles(s, e) {
      HandledSo(s, e);
      assert forall o :: Due(s, e, o) ==> Answers(s, e, s.hands[e.pid].request, o);
    } else if e.AnswerStatus? {
      assert Answers(s, e, s.hands[e.pid].request, PolicyStatus);
    }
  }

  /** Response number `i` of the run is sent by event `k`. */
  ghost predicate SentBy(run: seq<State>, es: seq<Event>, i: nat, k: nat, a: Answer)
    requires IsRun(run, es)
  {
    k < |es| && |run[k].answers| == i && Answers(run[k], es[k], a.request, a.outcome)
  }

  lemma NextAnswers(run: seq<State>, es: seq<Event>, n: nat)
    requires IsRun(run, es) && n < |es|
    ensures run[n].answers <= run[n + 1].answers
  {
    StepAnswers(run[n], es[n]);
    hide Step, Answers;
  }

  lemma {:induction false} AnswersStay(run: seq<State>, es: seq<Event>, k: nat, n: nat)
    requires IsRun(run, es) && k <= n <= |es|
    ensures run[k].answers <= run[n].answers
    decreases n
  {
    hide IsRun;
    if k < n {
      AnswersStay(run, es, k, n - 1);
      NextAnswers(run, es, n - 1);
      LengthIs(run, es);
    }
  }

  lemma LengthIs(run: seq<State>, es: seq<Event>)
    requires IsRun(run, es)
    ensures |run| == |es| + 1
  {}

  lemma {:induction false} SentAt(run: seq<State>, es: seq<Event>, n: nat, i: nat) returns (k: nat)
    requires IsRun(run, es) && n <= |es| && i < |run[n].answers|
    ensures SentBy(run, es, i, k, run[n].answers[i])
    decreases n
  {
    hide Step, Answers;
    assert n > 0 && run[n] == Step(run[n - 1], es[n - 1]);
    StepAnswers(run[n - 1], es[n - 1]);
    if i < |run[n - 1].answers| {
      k := SentAt(run, es, n - 1, i);
      AnswersStay(run, es, n - 1, n);
    } else {
      k := n - 1;
    }
  }

  /**
   * Over any run, the Responses sent are exactly those due: Response `i` answers `a.request` with
   * `a.outcome` if and only if a step, the one after `i` others were sent, was due to send it.
   */
  lemma AnsweredExactly(run: seq<State>, es: seq<Event>, i: nat, a: Answer)
    requires IsRun(run, es)
    ensures (i < |run[|es|].answers| && run[|es|].answers[i] == a) <==> exists k: nat :: SentBy(run, es, i, k, a)
  {
    hide Step, Answers;
    if i < |run[|es|].answers| && run[|es|].answers[i] == a {
      var k := SentAt(run, es, |es|, i);
    }
    forall k: nat | SentBy(run, es, i, k, a) ensures i < |run[|es|].answers| && run[|es|].answers[i] == a {
      StepAnswers(run[k], es[k]);
      assert run[k + 1] == Step(run[k], es[k]);
      AnswersStay(run, es, k + 1, |es|);
    }
  }

  /**
   * So an assertion is sent only for a signed-in user who is known in the request's tenant, not
   * refused and allowed, at a level that is enough, whose NameID and attributes can be issued, who is
   * the subject asked for, and whose sign-in is recorded for logout; after a resume, to an SP still there.
   */
  lemma AssertionsAreEarned(run: seq<State>, es: seq<Event>, i: nat) returns (k: nat)
    requires IsRun(run, es) && Guarded(run, es)
    requires i < |run[|es|].answers| && run[|es|].answers[i].outcome.Assertion?
    ensures k < |es| && (es[k].Handle? || es[k].Finish?) && Possible(run[k], es[k])
    ensures var r, o, v := run[|es|].answers[i].request, run[|es|].answers[i].outcome, es[k].verdicts;
      && r == run[k].hands[es[k].pid].request && |run[k].answers| == i
      && v.identity == Some(r.message.tenant) && !v.principalRefused && v.authorization == Allow
      && !v.unusable && v.subjectMatches && v.recorded
      && (v.levels.Some? ==> o.achieved == v.achieved && o.achieved.Some? && o.achieved.value in v.levels.value)
      && (v.levels.Some? && r.message.context.Some? ==> Satisfies(r.message.context.value, o.achieved.value, v.levels.value))
      && o.tenant == r.message.tenant
      && (es[k].Handle? ==> es[k].session == Some(o.session))
      && (es[k].Finish? ==> v.spThere && run[k].hands[es[k].pid].session == o.session)
      && (r.message.forceAuthn || r.forceAuthn ==> es[k].Finish? && r.createdAt <= o.session.createdAt)
  {
    var places := RunCounts(run, es);
    hide Step, Satisfies;
    k := SentAt(run, es, |es|, i);
  }

  // ---- Where what is carried comes from ------------------------------------------------------------

  predicate InWindow(m: Message, now: int, skew: nat) {
    now - 300_000 - skew <= m.issueInstant && m.issueInstant <= now + skew
  }

  /** Token `t` is live at `s` and holds `r`, of this kind. */
  predicate Live(s: State, t: nat, continuation: bool, r: Request) {
    t in s.tokens && s.tokens[t].continuation == continuation && s.tokens[t].request == r && s.now <= s.tokens[t].expiresAt
  }

  /** The step puts `h` into the hands of process `p`. */
  predicate Takes(s: State, e: Event, p: nat, h: InHand)
    requires Possible(s, e)
  {
    match h
    case Checked(m, at, post) => e == Receive(p, m, post) && InWindow(m, s.now, s.skew) && at == s.now
    case Recorded(r, post) =>
      && e == Record(p) && s.hands[p] == Checked(r.message, r.createdAt, post) && KeyOf(r.message) !in s.seen && r.forceAuthn == r.message.forceAuthn
    case Reentered(r) => e.Reenter? && e.pid == p && e.ok && Live(s, e.token, true, r)
    case Resumed(r, session) => e.TakeUp? && e.pid == p && e.user == session && e.bound && Live(s, e.token, false, r)
  }

  /** The step stores `r` in token `t`. */
  predicate Keeps(s: State, e: Event, t: nat, v: Stored)
    requires Possible(s, e)
  {
    if v.continuation then
      e.Continue? && e.token == t && s.hands[e.pid] == Recorded(v.request, true) && v.expiresAt == s.now + 120_000
    else
      Handles(s, e) && e.token == t && ParkDue(s, e, v.request) && v.expiresAt == s.now + s.pendingTtl
  }

  /** A process carries what it did, or exactly what this step was to give it. */
  lemma StepTakes(s: State, e: Event, p: nat)
    requires Possible(s, e)
    ensures p in Step(s, e).hands ==> (p in s.hands && s.hands[p] == Step(s, e).hands[p]) || Takes(s, e, p, Step(s, e).hands[p])
    ensures forall h :: Takes(s, e, p, h) ==> p in Step(s, e).hands && Step(s, e).hands[p] == h
  {
    hide Issue;
  }

  lemma StepStores(s: State, e: Event, t: nat)
    requires Possible(s, e)
    ensures t in Step(s, e).tokens ==> (t in s.tokens && s.tokens[t] == Step(s, e).tokens[t]) || Keeps(s, e, t, Step(s, e).tokens[t])
    ensures forall v :: Keeps(s, e, t, v) ==> t in Step(s, e).tokens && Step(s, e).tokens[t] == v
    ensures (e.Reenter? || e.TakeUp?) && (exists r :: Live(s, e.token, e.Reenter?, r)) ==> e.token !in Step(s, e).tokens
  {
    if Handles(s, e) {
      HandledSo(s, e);
      hide Step;
    }
  }

  /** A token goes only by being taken while it is live, or by a sweep after its time. */
  lemma StepSpends(s: State, e: Event, t: nat)
    requires Possible(s, e) && t in s.tokens
    ensures t !in Step(s, e).tokens <==>
      || ((e.Reenter? || e.TakeUp?) && e.token == t && Live(s, t, e.Reenter?, s.tokens[t].request))
      || (e.Sweep? && s.tokens[t].expiresAt < s.now)
  {
    if Handles(s, e) { HandledSo(s, e); }
    hide Issue, Proceed, Resume;
  }

  /** An ID is seen from its record on, for the whole window with the clocks apart, until a sweep after that. */
  lemma StepSees(s: State, e: Event, k: Key)
    requires Possible(s, e)
    ensures var s' := Step(s, e); var first := e.Record? && k == KeyOf(s.hands[e.pid].message) && k !in s.seen;
      && (k in s'.seen <==> first || (k in s.seen && !(e.Sweep? && s.seen[k] < s.now)))
      && (k in s'.seen ==> s'.seen[k] == if first then s.hands[e.pid].readAt + 300_000 + 2 * s.skew else s.seen[k])
      && s'.now == s.now + (if e.Tick? then e.ms else 0)
  {
    hide Issue, Proceed, Resume;
  }

  lemma {:induction false} HeldSince(run: seq<State>, es: seq<Event>, n: nat, p: nat) returns (k: nat)
    requires IsRun(run, es) && n <= |es| && p in run[n].hands
    ensures k < n && Takes(run[k], es[k], p, run[n].hands[p])
    decreases n
  {
    hide Step, Takes;
    assert n > 0 && run[n] == Step(run[n - 1], es[n - 1]);
    StepTakes(run[n - 1], es[n - 1], p);
    if Takes(run[n - 1], es[n - 1], p, run[n].hands[p]) { k := n - 1; } else { k := HeldSince(run, es, n - 1, p); }
  }

  lemma {:induction false} StoredSince(run: seq<State>, es: seq<Event>, n: nat, t: nat) returns (k: nat)
    requires IsRun(run, es) && n <= |es| && t in run[n].tokens
    ensures k < n && Keeps(run[k], es[k], t, run[n].tokens[t])
    decreases n
  {
    hide Step, Keeps;
    assert n > 0 && run[n] == Step(run[n - 1], es[n - 1]);
    StepStores(run[n - 1], es[n - 1], t);
    if Keeps(run[n - 1], es[n - 1], t, run[n].tokens[t]) { k := n - 1; } else { k := StoredSince(run, es, n - 1, t); }
  }

  /** `m` arrived at event `j`, while it was fresh, and its ID was recorded at event `k` as one not seen before. */
  ghost predicate CameIn(run: seq<State>, es: seq<Event>, m: Message, j: nat, k: nat)
    requires IsRun(run, es)
  {
    && j < k < |es| && es[j].Receive? && es[j].message == m && InWindow(m, run[j].now, run[j].skew)
    && es[k] == Record(es[j].pid) && KeyOf(m) !in run[k].seen
  }

  /**
   * Whatever a process carries on with arrived while it was fresh and was recorded then as the first
   * of its ID. Between there and here it was only in tokens: from an HTTP-POST into the same-site GET
   * that found its SP as it was, or parked when that was due and taken up by the browser it was parked for.
   */
  lemma {:induction false} CarriedCameIn(run: seq<State>, es: seq<Event>, n: nat, p: nat) returns (j: nat, k: nat)
    requires IsRun(run, es) && n <= |es| && p in run[n].hands && Carries(run[n].hands[p])
    ensures k < n && CameIn(run, es, run[n].hands[p].request.message, j, k)
    decreases n
  {
    hide Step;
    k := HeldSince(run, es, n, p);
    var h := run[n].hands[p];
    if h.Recorded? {
      hide Takes;
      RecordTakes(run[k], es[k], p, h);
      j := HeldSince(run, es, k, p);
      CheckedTakes(run[j], es[j], p, h.request.message, h.request.createdAt, h.post);
    } else {
      TokenTakes(run[k], es[k], p, h);
      var i := StoredSince(run, es, k, es[k].token);
      StoredCarries(run[i], es[i], es[k].token, run[k].tokens[es[k].token]);
      j, k := CarriedCameIn(run, es, i, es[i].pid);
    }
  }

  lemma RecordTakes(s: State, e: Event, p: nat, h: InHand)
    requires Possible(s, e) && Takes(s, e, p, h) && h.Recorded?
    ensures e == Record(p) && p in s.hands && s.hands[p] == Checked(h.request.message, h.request.createdAt, h.post) && KeyOf(h.request.message) !in s.seen
  {}

  lemma CheckedTakes(s: State, e: Event, p: nat, m: Message, at: int, post: bool)
    requires Possible(s, e) && Takes(s, e, p, Checked(m, at, post))
    ensures e == Receive(p, m, post) && InWindow(m, s.now, s.skew)
  {}

  lemma TokenTakes(s: State, e: Event, p: nat, h: InHand)
    requires Possible(s, e) && Takes(s, e, p, h) && Carries(h) && !h.Recorded?
    ensures (e.Reenter? || e.TakeUp?) && e.token in s.tokens && s.tokens[e.token].request == h.request
  {}

  lemma StoredCarries(s: State, e: Event, t: nat, v: Stored)
    requires Possible(s, e) && Keeps(s, e, t, v)
    ensures (e.Continue? || e.Handle? || e.Finish?) && e.pid in s.hands && Carries(s.hands[e.pid])
    ensures s.hands[e.pid].request.message == v.request.message
  {}

  /** Every Response, of whatever kind, answers a message that came in so. */
  lemma AnsweredCameIn(run: seq<State>, es: seq<Event>, i: nat) returns (j: nat, k: nat)
    requires IsRun(run, es) && i < |run[|es|].answers|
    ensures CameIn(run, es, run[|es|].answers[i].request.message, j, k) && |run[k].answers| <= i
  {
    hide Step;
    var n := SentAt(run, es, |es|, i);
    j, k := CarriedCameIn(run, es, n, es[n].pid);
    AnswersStay(run, es, k, n);
  }
}
